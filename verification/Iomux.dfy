/** The pin multiplexer of iomux.c: a loop that keeps the register it is changing in a
    variable and writes it back when the next pin uses another one. */
module Iomux {

  type Word = bv32

  const IOMUX_REGS: nat := 18

  /** mux_pin_s; register ids run from 1 to 18, pins with another id are skipped. */
  datatype Pin = Pin(mode: bv8, shift: bv8, regid: nat)

  predicate Valid(p: Pin) {
    1 <= p.regid <= IOMUX_REGS
  }

  /** A shift of 32 or more has no meaning in C. */
  predicate Defined(pins: seq<Pin>) {
    forall i | 0 <= i < |pins| :: Valid(pins[i]) ==> pins[i].shift <= 31
  }

  /** One of the eight four-bit fields of a register, and a mode that fits it. */
  predicate IsShift(shift: bv8) {
    shift <= 28 && shift & 3 == 0
  }

  predicate WellFormed(p: Pin) {
    IsShift(p.shift) && p.mode < 16
  }

  /** The field cleared, then set. */
  function Apply(val: Word, p: Pin): Word
    requires p.shift <= 31
  {
    (val & !((0xF as Word) << p.shift)) | ((p.mode as Word) << p.shift)
  }

  function Field(val: Word, shift: bv8): Word
    requires shift <= 31
  {
    (val >> shift) & 0xF
  }

  /** A well-formed pin sets its own field and no other. */
  lemma ApplySetsOneField(val: Word, p: Pin, shift: bv8)
    requires WellFormed(p) && IsShift(shift)
    ensures Field(Apply(val, p), shift) == if shift == p.shift then p.mode as Word else Field(val, shift)
  {
  }

  /** A mode that is too wide for its field sets the field to its low bits, and spills its high
      bits over what is in the next one. */
  lemma WideModeInField(val: Word, p: Pin)
    requires IsShift(p.shift)
    ensures Field(Apply(val, p), p.shift) == (p.mode & 0xF) as Word
  {
  }

  lemma WideModeSpills(val: Word, p: Pin)
    requires IsShift(p.shift) && p.shift < 28
    ensures Field(Apply(val, p), p.shift + 4) == Field(val, p.shift + 4) | ((p.mode >> 4) as Word)
  {
  }

  // ------------------------------------------------------------- one pin after another

  /** A separate read, change and write for each valid pin. */
  function Configured(regs: seq<Word>, pins: seq<Pin>): (r: seq<Word>)
    requires |regs| == IOMUX_REGS && Defined(pins)
    ensures |r| == IOMUX_REGS
  {
    if pins == [] then regs
    else
      var n := |pins| - 1;
      var before := Configured(regs, pins[..n]);
      if Valid(pins[n]) then before[pins[n].regid - 1 := Apply(before[pins[n].regid - 1], pins[n])] else before
  }

  /** The register ids the loop writes: one for each run of equal ids among the valid pins. */
  function Runs(pins: seq<Pin>): (r: seq<nat>)
    ensures forall i | 0 <= i < |r| :: 1 <= r[i] <= IOMUX_REGS
  {
    if pins == [] then []
    else
      var before, p := Runs(pins[..|pins| - 1]), pins[|pins| - 1];
      if !Valid(p) || (before != [] && before[|before| - 1] == p.regid) then before else before + [p.regid]
  }

  function ValidIds(pins: seq<Pin>): seq<nat> {
    if pins == [] then []
    else ValidIds(pins[..|pins| - 1]) + (if Valid(pins[|pins| - 1]) then [pins[|pins| - 1].regid] else [])
  }

  /** Places at which a run of equal ids starts. */
  function Starts(ids: seq<nat>): nat {
    if ids == [] then 0
    else Starts(ids[..|ids| - 1]) + (if |ids| == 1 || ids[|ids| - 2] != ids[|ids| - 1] then 1 else 0)
  }

  /** runs are the starts of the runs of ids. */
  ghost predicate RunsOf(runs: seq<nat>, ids: seq<nat>) {
    && |runs| == Starts(ids)
    && (forall i | 0 <= i < |runs| - 1 :: runs[i] != runs[i + 1])
    && (forall id :: id in runs <==> id in ids)
    && (runs == [] <==> ids == [])
    && (runs != [] ==> runs[|runs| - 1] == ids[|ids| - 1])
  }

  lemma RunsMore(runs: seq<nat>, ids: seq<nat>, id: nat)
    requires RunsOf(runs, ids)
    ensures RunsOf(if runs != [] && runs[|runs| - 1] == id then runs else runs + [id], ids + [id])
  {
    StartsMore(ids, id);
    hide Starts;
    assert forall x :: x in ids + [id] <==> x in ids || x == id;
  }

  lemma {:induction false} RunsFollowIds(pins: seq<Pin>)
    ensures RunsOf(Runs(pins), ValidIds(pins))
  {
    hide RunsOf;
    if pins == [] {
      NoRuns();
    } else {
      var n := |pins| - 1;
      RunsFollowIds(pins[..n]);
      RunsMore(Runs(pins[..n]), ValidIds(pins[..n]), pins[n].regid);
      assert ValidIds(pins[..n]) + [] == ValidIds(pins[..n]);
    }
  }

  lemma NoRuns()
    ensures RunsOf([], [])
  {
  }

  /** As many writes as there are maximal runs, no register written twice in a row, and the
      written ids are those of the valid pins. */
  lemma {:induction false} RunsAreMaximal(pins: seq<Pin>)
    ensures |Runs(pins)| == Starts(ValidIds(pins))
    ensures forall i | 0 <= i < |Runs(pins)| - 1 :: Runs(pins)[i] != Runs(pins)[i + 1]
    ensures forall id :: id in Runs(pins) <==> id in ValidIds(pins)
    ensures Runs(pins) == [] <==> ValidIds(pins) == []
    ensures Runs(pins) != [] ==> Runs(pins)[|Runs(pins)| - 1] == ValidIds(pins)[|ValidIds(pins)| - 1]
  {
    hide Runs, ValidIds, Starts;
    RunsFollowIds(pins);
  }

  lemma StartsMore(ids: seq<nat>, id: nat)
    ensures Starts(ids + [id]) == Starts(ids) + (if ids == [] || ids[|ids| - 1] != id then 1 else 0)
  {
    assert (ids + [id])[..|ids|] == ids;
  }

  /** What the last well-formed pin for a field asks for. */
  function LastMode(pins: seq<Pin>, regid: nat, shift: bv8, otherwise: Word): Word {
    if pins == [] then otherwise
    else
      var p := pins[|pins| - 1];
      if p.regid == regid && p.shift == shift then p.mode as Word
      else LastMode(pins[..|pins| - 1], regid, shift, otherwise)
  }

  /** Reading any field of any register back gives the mode of the last pin for it, or what
      was there before. */
  lemma {:induction false} FieldsReadBack(regs: seq<Word>, pins: seq<Pin>, regid: nat, shift: bv8)
    requires |regs| == IOMUX_REGS && Defined(pins) && 1 <= regid <= IOMUX_REGS && IsShift(shift)
    requires forall i | 0 <= i < |pins| :: Valid(pins[i]) ==> WellFormed(pins[i])
    ensures Field(Configured(regs, pins)[regid - 1], shift)
            == LastMode(pins, regid, shift, Field(regs[regid - 1], shift))
  {
    if pins != [] {
      var n := |pins| - 1;
      FieldsReadBack(regs, pins[..n], regid, shift);
      if pins[n].regid == regid {
        ApplySetsOneField(Configured(regs, pins[..n])[regid - 1], pins[n], shift);
      }
    }
  }

  // ------------------------------------------------------------------------- the loop

  /** p4a_iomux_config: the registers end up as if every valid pin had been written on its
      own, with one write for each run of equal ids. */
  method P4aIomuxConfig(regs: array<Word>, pins: seq<Pin>) returns (writes: seq<nat>)
    requires regs.Length == IOMUX_REGS && Defined(pins)
    modifies regs
    ensures regs[..] == Configured(old(regs[..]), pins)
    ensures writes == Runs(pins)
  {
    hide Apply;
    var cachedRegid, val, cnt, i := -1, 0 as Word, 0, 0;
    writes := [];
    while i < |pins|
      invariant 0 <= i <= |pins| && cnt >= 0 && (cnt == 0 <==> cachedRegid == -1)
      invariant cnt > 0 ==> 1 <= cachedRegid <= IOMUX_REGS
      invariant Configured(old(regs[..]), pins[..i]) == if cnt > 0 then regs[..][cachedRegid - 1 := val] else regs[..]
      invariant Runs(pins[..i]) == if cnt > 0 then writes + [cachedRegid] else writes
      invariant cnt == 0 ==> writes == []
    {
      var p := pins[i];
      assert pins[..i + 1][..i] == pins[..i];
      if p.regid < 1 || p.regid > 18 {
        i := i + 1;
        continue;
      }
      if cachedRegid != p.regid {
        if cnt > 0 {
          regs[cachedRegid - 1] := val;
          writes := writes + [cachedRegid];
        }
        cachedRegid := p.regid;
        val := regs[cachedRegid - 1];
        cnt := 0;
      }
      val := Apply(val, p);
      cnt := cnt + 1;
      i := i + 1;
    }
    assert pins[..i] == pins;
    if cnt > 0 {
      regs[cachedRegid - 1] := val;
      writes := writes + [cachedRegid];
    }
  }
}
