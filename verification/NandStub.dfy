/** The in-memory NAND of nand_stub.c: blocks and pages come into being when they are first
    written, and still reads, writes and erases agree with a flat array of pages. */
module NandStub {
  import opened Basics

  const NEM_PAGE_TOTAL_SIZE: nat := 2048 + 64
  const NEM_PAGES_PER_BLOCK: nat := 64
  const NEM_BLOCKS_PER_CHIP: nat := 4096
  const PAGES: nat := 64 * 4096

  function Blank(): (r: seq<Byte>)
    ensures |r| == NEM_PAGE_TOTAL_SIZE && forall c | 0 <= c < |r| :: r[c] == 0xFF
  {
    seq(NEM_PAGE_TOTAL_SIZE, _ => 0xFF)
  }

  /** What fits between the column and the end of the page. */
  function Clip(column: nat, buf: seq<Byte>): (r: seq<Byte>)
    requires column <= NEM_PAGE_TOTAL_SIZE
    ensures column + |r| <= NEM_PAGE_TOTAL_SIZE
  {
    buf[..Min(|buf|, NEM_PAGE_TOTAL_SIZE - column)]
  }

  function Overwrite(page: seq<Byte>, column: nat, d: seq<Byte>): (r: seq<Byte>)
    requires column + |d| <= |page|
    ensures |r| == |page|
  {
    page[..column] + d + page[column + |d|..]
  }

  // ------------------------------------------------------------------ the flat reference

  datatype Op = Write(page: nat, column: nat, buf: seq<Byte>) | Erase(page: nat)

  predicate InRange(op: Op) {
    op.page < PAGES && (op.Write? ==> op.column <= NEM_PAGE_TOTAL_SIZE)
  }

  predicate IsFlat(flat: seq<seq<Byte>>) {
    |flat| == PAGES && forall p | 0 <= p < PAGES :: |flat[p]| == NEM_PAGE_TOTAL_SIZE
  }

  predicate SameBlock(p: nat, q: nat) {
    p / NEM_PAGES_PER_BLOCK == q / NEM_PAGES_PER_BLOCK
  }

  function Applied(flat: seq<seq<Byte>>, op: Op): (r: seq<seq<Byte>>)
    requires IsFlat(flat) && InRange(op)
    ensures IsFlat(r)
  {
    match op
    case Write(page, column, buf) => flat[page := Overwrite(flat[page], column, Clip(column, buf))]
    case Erase(page) => seq(PAGES, p requires 0 <= p < PAGES => if SameBlock(p, page) then Blank() else flat[p])
  }

  function AppliedAll(ops: seq<Op>): (r: seq<seq<Byte>>)
    requires forall i | 0 <= i < |ops| :: InRange(ops[i])
    ensures IsFlat(r)
  {
    if ops == [] then seq(PAGES, _ => Blank()) else Applied(AppliedAll(ops[..|ops| - 1]), ops[|ops| - 1])
  }

  /** A byte is what the last write over it put there, unless its block was erased since. */
  function LastByte(ops: seq<Op>, page: nat, column: nat): Byte {
    if ops == [] then 0xFF
    else
      var op := ops[|ops| - 1];
      if op.Erase? && 64 * (op.page / 64) <= page < 64 * (op.page / 64) + 64 then 0xFF
      else if op.Write? && op.page == page && op.column <= column < op.column + |op.buf| then op.buf[column - op.column]
      else LastByte(ops[..|ops| - 1], page, column)
  }

  /** One operation, one byte. */
  lemma AppliedByte(flat: seq<seq<Byte>>, op: Op, page: nat, column: nat)
    requires IsFlat(flat) && InRange(op) && page < PAGES && column < NEM_PAGE_TOTAL_SIZE
    ensures Applied(flat, op)[page][column] ==
            if op.Erase? && SameBlock(page, op.page) then 0xFF
            else if op.Write? && op.page == page && op.column <= column < op.column + |op.buf| then
              op.buf[column - op.column]
            else flat[page][column]
  {
  }

  lemma BlankByte(column: nat)
    requires column < NEM_PAGE_TOTAL_SIZE
    ensures Blank()[column] == 0xFF
  {
  }

  /** For every sequence of operations in range. */
  lemma {:induction false} ReadsLastByte(ops: seq<Op>, page: nat, column: nat)
    requires forall i | 0 <= i < |ops| :: InRange(ops[i])
    requires page < PAGES && column < NEM_PAGE_TOTAL_SIZE
    ensures AppliedAll(ops)[page][column] == LastByte(ops, page, column)
  {
    hide Applied, SameBlock, Blank;
    if ops == [] {
      BlankByte(column);
    } else {
      var n := |ops| - 1;
      ReadsLastByte(ops[..n], page, column);
      SameBlockIs(page, ops[n].page);
      AppliedByte(AppliedAll(ops[..n]), ops[n], page, column);
    }
  }

  /** An erase blanks the 64 pages of the block that the page is in, and no other page. */
  lemma {:induction false} EraseBlanksBlock(ops: seq<Op>, page: nat, q: nat)
    requires forall i | 0 <= i < |ops| :: InRange(ops[i])
    requires page < PAGES && q < PAGES
    ensures var before, after := AppliedAll(ops), AppliedAll(ops + [Erase(page)]);
            && |before[q]| == |after[q]| == 2048 + 64
            && (64 * (page / 64) <= q < 64 * (page / 64) + 64 ==> forall c | 0 <= c < 2048 + 64 :: after[q][c] == 0xFF)
            && (q < 64 * (page / 64) || q >= 64 * (page / 64) + 64 ==> after[q] == before[q])
  {
    AppliedMore(ops, Erase(page));
    SameBlockIs(q, page);
  }

  lemma SameBlockIs(p: nat, q: nat)
    ensures SameBlock(p, q) <==> 64 * (q / 64) <= p < 64 * (q / 64) + 64
  {
  }

  lemma LastBytes(ops: seq<Op>, page: nat, column: nat, buf: seq<Byte>)
    requires forall i | 0 <= i < |ops| :: InRange(ops[i])
    requires page < PAGES && column + |buf| <= NEM_PAGE_TOTAL_SIZE
    requires buf == AppliedAll(ops)[page][column..column + |buf|]
    ensures forall c | 0 <= c < |buf| :: buf[c] == LastByte(ops, page, column + c)
  {
    forall c | 0 <= c < |buf| ensures buf[c] == LastByte(ops, page, column + c) {
      ReadsLastByte(ops, page, column + c);
    }
  }

  lemma AppliedMore(ops: seq<Op>, op: Op)
    requires (forall i | 0 <= i < |ops| :: InRange(ops[i])) && InRange(op)
    ensures AppliedAll(ops + [op]) == Applied(AppliedAll(ops), op)
  {
    assert (ops + [op])[..|ops|] == ops;
  }

  // ---------------------------------------------------------------------- the lazy store

  /** nandemul_page_t; `home` is the page's address. */
  class Page {
    var data: seq<Byte>
    ghost const home: nat

    constructor (ghost home: nat)
      ensures data == Blank() && this.home == home
    {
      data := Blank();
      this.home := home;
    }
  }

  class Block {
    var page: seq<Page?>
    ghost const num: nat

    constructor (ghost num: nat)
      ensures |page| == NEM_PAGES_PER_BLOCK && this.num == num
      ensures forall i | 0 <= i < |page| :: page[i] == null
    {
      page := seq(NEM_PAGES_PER_BLOCK, _ => null);
      this.num := num;
    }
  }

  /** nandemul_chip_t; `flat` is what the store stands for. */
  class Chip {
    var block: seq<Block?>
    ghost var flat: seq<seq<Byte>>
    ghost var repr: set<object>

    /** Block b of the chip, when there, has its pages in place. */
    ghost predicate BlockValid(b: nat)
      requires b < |block|
      reads this, repr
    {
      var bl := block[b];
      bl != null ==>
        && bl in repr && bl.num == b && |bl.page| == NEM_PAGES_PER_BLOCK
        && forall i | 0 <= i < NEM_PAGES_PER_BLOCK ::
             var pg := bl.page[i];
             pg != null ==> pg in repr && pg.home == b * NEM_PAGES_PER_BLOCK + i && |pg.data| == NEM_PAGE_TOTAL_SIZE
    }

    /** The bytes of page i of block b; absent pages and blocks are blank. */
    ghost function Bytes(b: nat, i: nat): seq<Byte>
      requires b < |block| && i < NEM_PAGES_PER_BLOCK && BlockValid(b)
      reads this, repr
    {
      if block[b] == null || block[b].page[i] == null then Blank() else block[b].page[i].data
    }

    ghost predicate Valid()
      reads this, repr
    {
      && |block| == NEM_BLOCKS_PER_CHIP && IsFlat(flat)
      && (forall b | 0 <= b < NEM_BLOCKS_PER_CHIP :: BlockValid(b))
      && forall b, i | 0 <= b < NEM_BLOCKS_PER_CHIP && 0 <= i < NEM_PAGES_PER_BLOCK ::
           Bytes(b, i) == flat[b * NEM_PAGES_PER_BLOCK + i]
    }

    /** The store stands for the flat array after the same operations. */
    ghost predicate Faithful(ops: seq<Op>)
      reads this, repr
    {
      Valid() && (forall i | 0 <= i < |ops| :: InRange(ops[i])) && flat == AppliedAll(ops)
    }

    constructor ()
      ensures Faithful([]) && fresh(repr)
    {
      block := seq(NEM_BLOCKS_PER_CHIP, _ => null);
      flat := AppliedAll([]);
      repr := {};
    }

    /** mf_NandReadPage */
    method NandReadPage(page: nat, column: nat, len: nat, ghost ops: seq<Op>) returns (buf: seq<Byte>, retlen: int)
      requires Faithful(ops) && page < PAGES && column <= NEM_PAGE_TOTAL_SIZE
      ensures retlen == |buf| == Min(len, NEM_PAGE_TOTAL_SIZE - column)
      ensures buf == AppliedAll(ops)[page][column..column + |buf|]
      ensures forall c | 0 <= c < |buf| :: buf[c] == LastByte(ops, page, column + c)
    {
      var n := Min(len, NEM_PAGE_TOTAL_SIZE - column);
      var b, i := page / NEM_PAGES_PER_BLOCK, page % NEM_PAGES_PER_BLOCK;
      assert BlockValid(b) && Bytes(b, i) == flat[b * NEM_PAGES_PER_BLOCK + i];
      assert b * NEM_PAGES_PER_BLOCK + i == page && flat == AppliedAll(ops);
      hide AppliedAll, LastByte, Valid;
      if block[b] == null || block[b].page[i] == null {
        buf := seq(n, _ => 0xFF);
      } else {
        buf := block[b].page[i].data[column..column + n];
      }
      retlen := n;
      assert buf == flat[page][column..column + n];
      LastBytes(ops, page, column, buf);
    }

    /** The block is there. */
    method NeedBlock(b: nat) returns (bl: Block)
      requires Valid() && b < NEM_BLOCKS_PER_CHIP
      modifies this
      ensures Valid() && flat == old(flat) && fresh(repr - old(repr)) && old(repr) <= repr
      ensures block[b] == bl
    {
      if block[b] != null {
        return block[b];
      }
      bl := new Block(b);
      assert forall c, i | 0 <= c < NEM_BLOCKS_PER_CHIP && 0 <= i < NEM_PAGES_PER_BLOCK ::
          BlockValid(c) && Bytes(c, i) == flat[c * NEM_PAGES_PER_BLOCK + i];
      label before:
      block := block[b := bl];
      repr := repr + {bl};
      forall c | 0 <= c < NEM_BLOCKS_PER_CHIP ensures BlockValid(c) {
        assert old@before(BlockValid(c));
      }
      forall c, i | 0 <= c < NEM_BLOCKS_PER_CHIP && 0 <= i < NEM_PAGES_PER_BLOCK
        ensures Bytes(c, i) == flat[c * NEM_PAGES_PER_BLOCK + i]
      {
        assert Bytes(c, i) == old@before(Bytes(c, i));
      }
    }

    /** The page is there, blank when it is new. */
    method NeedPage(bl: Block, b: nat, i: nat) returns (pg: Page)
      requires Valid() && b < NEM_BLOCKS_PER_CHIP && i < NEM_PAGES_PER_BLOCK && block[b] == bl
      modifies this`repr, bl
      ensures Valid() && flat == old(flat) && fresh(repr - old(repr)) && old(repr) <= repr
      ensures block[b] == bl && BlockValid(b) && bl.page[i] == pg
    {
      assert BlockValid(b);
      if bl.page[i] != null {
        return bl.page[i];
      }
      pg := new Page(b * NEM_PAGES_PER_BLOCK + i);
      assert forall c | 0 <= c < NEM_BLOCKS_PER_CHIP :: BlockValid(c);
      label before:
      bl.page := bl.page[i := pg];
      repr := repr + {pg};
      forall c | 0 <= c < NEM_BLOCKS_PER_CHIP ensures BlockValid(c) {
        assert old@before(BlockValid(c));
      }
      forall c, j | 0 <= c < NEM_BLOCKS_PER_CHIP && 0 <= j < NEM_PAGES_PER_BLOCK
        ensures Bytes(c, j) == flat[c * NEM_PAGES_PER_BLOCK + j]
      {
        assert Bytes(c, j) == old@before(Bytes(c, j));
      }
    }

    /** Changing the data of one page that is there. */
    method SetData(pg: Page, b: nat, i: nat, data: seq<Byte>)
      requires Valid() && b < NEM_BLOCKS_PER_CHIP && i < NEM_PAGES_PER_BLOCK
      requires block[b] != null && BlockValid(b) && block[b].page[i] == pg && |data| == NEM_PAGE_TOTAL_SIZE
      modifies this`flat, pg
      ensures Valid() && flat == old(flat)[b * NEM_PAGES_PER_BLOCK + i := data]
    {
      label before:
      pg.data := data;
      flat := flat[b * NEM_PAGES_PER_BLOCK + i := data];
      forall c | 0 <= c < NEM_BLOCKS_PER_CHIP ensures BlockValid(c) {
        assert old@before(BlockValid(c));
      }
      forall c, j | 0 <= c < NEM_BLOCKS_PER_CHIP && 0 <= j < NEM_PAGES_PER_BLOCK
        ensures Bytes(c, j) == flat[c * NEM_PAGES_PER_BLOCK + j]
      {
        assert old@before(BlockValid(c)) && old@before(Bytes(c, j)) == old@before(flat)[c * NEM_PAGES_PER_BLOCK + j];
      }
    }

    /** mf_NandWritePage; an address past the chip is refused. */
    method NandWritePage(page: nat, column: nat, buf: seq<Byte>, ghost ops: seq<Op>) returns (ret: int, retlen: int)
      requires Faithful(ops) && column <= NEM_PAGE_TOTAL_SIZE
      modifies this, repr
      ensures fresh(repr - old(repr)) && old(repr) <= repr
      ensures ret == if page < PAGES then 0 else -1
      ensures page >= PAGES ==> Faithful(ops)
      ensures page < PAGES ==>
                retlen == Min(|buf|, NEM_PAGE_TOTAL_SIZE - column) && Faithful(ops + [Write(page, column, buf)])
    {
      var d := Clip(column, buf);
      var b, i := page / NEM_PAGES_PER_BLOCK, page % NEM_PAGES_PER_BLOCK;
      if b >= NEM_BLOCKS_PER_CHIP {
        return -1, 0;
      }
      var bl := NeedBlock(b);
      assert BlockValid(b);
      var pg := NeedPage(bl, b, i);
      assert Bytes(b, i) == flat[page];
      SetData(pg, b, i, Overwrite(pg.data, column, d));
      AppliedMore(ops, Write(page, column, buf));
      ret, retlen := 0, |d|;
    }

    /** One round of the erase loop: a page that is there is blanked in place. */
    method BlankPage(bl: Block, b: nat, i: nat)
      requires Valid() && b < NEM_BLOCKS_PER_CHIP && i < NEM_PAGES_PER_BLOCK && block[b] == bl
      modifies this`flat, repr
      ensures Valid() && repr == old(repr) && block[b] == bl
      ensures flat == old(flat)[b * NEM_PAGES_PER_BLOCK + i := Blank()]
    {
      assert BlockValid(b);
      var pg := bl.page[i];
      if pg != null {
        SetData(pg, b, i, Blank());
      } else {
        assert Bytes(b, i) == flat[b * NEM_PAGES_PER_BLOCK + i];
      }
    }

    /** The body of mf_NandEraseBlock. */
    method EraseFlat(page: nat)
      requires Valid() && page < PAGES
      modifies this`flat, repr
      ensures Valid() && repr == old(repr) && flat == Applied(old(flat), Erase(page))
    {
      var b := page / NEM_PAGES_PER_BLOCK;
      var bl := block[b];
      ghost var flat0 := flat;
      if bl == null {
        forall p | 0 <= p < PAGES && SameBlock(p, page) ensures flat[p] == Blank() {
          assert Bytes(b, p % NEM_PAGES_PER_BLOCK) == flat[b * NEM_PAGES_PER_BLOCK + p % NEM_PAGES_PER_BLOCK];
        }
        assert flat == Applied(flat0, Erase(page));
        return;
      }
      var i := 0;
      assert IsFlat(flat);
      hide Valid, Blank;
      while i < NEM_PAGES_PER_BLOCK
        invariant 0 <= i <= NEM_PAGES_PER_BLOCK && Valid() && block[b] == bl && repr == old(repr)
        invariant IsFlat(flat)
        invariant forall p | 0 <= p < PAGES ::
                    flat[p] == if SameBlock(p, page) && p % NEM_PAGES_PER_BLOCK < i then Blank() else flat0[p]
      {
        BlankPage(bl, b, i);
        i := i + 1;
      }
      assert flat == Applied(flat0, Erase(page));
    }

    /** mf_NandEraseBlock */
    method NandEraseBlock(page: nat, ghost ops: seq<Op>)
      requires Faithful(ops) && page < PAGES
      modifies this`flat, repr
      ensures Faithful(ops + [Erase(page)]) && repr == old(repr)
      ensures forall q | 0 <= q < PAGES ::
                AppliedAll(ops + [Erase(page)])[q] ==
                if 64 * (page / 64) <= q < 64 * (page / 64) + 64 then Blank() else AppliedAll(ops)[q]
    {
      AppliedMore(ops, Erase(page));
      EraseFlat(page);
      forall q | 0 <= q < PAGES ensures SameBlock(q, page) <==> 64 * (page / 64) <= q < 64 * (page / 64) + 64 {
        SameBlockIs(q, page);
      }
    }
  }
}
