/**
 * Go's function table: which function a program counter lies in, how large its frame is there, the same frame
 * sizes flattened into one sorted list of rows, and the stack walk that lives off them.
 */
module GoPclntabs {
  import opened Bits
  import JsonText
  import ProtoWire

  // ---- Varints ----

  datatype Read<+T> = Read(value: T, rest: seq<Byte>)

  /** `result |= ((b & 0x7f) as u32) << shift` on 32-bit words. */
  function AddGroup(result: U32, b: Byte, shift: nat): U32 {
    Or(result, ProtoWire.Place(b % 128, shift) % TWO_32) % TWO_32
  }

  function UvarintFrom(s: seq<Byte>, result: U32, shift: nat): (r: Option<Read<U32>>)
    ensures r.Some? ==> |r.value.rest| < |s|
    decreases |s|
  {
    if s == [] then None
    else
      var result' := AddGroup(result, s[0], shift);
      if s[0] < 128 then Some(Read(result', s[1..]))
      else if shift + 7 >= 32 then None
      else UvarintFrom(s[1..], result', shift + 7)
  }

  function Uvarint(s: seq<Byte>): (r: Option<Read<U32>>)
    ensures r.Some? ==> |r.value.rest| < |s|
  {
    UvarintFrom(s, 0, 0)
  }

  function Suffix(data: seq<Byte>, cur: nat): seq<Byte> {
    if cur <= |data| then data[cur..] else []
  }

  method ReadUvarint(data: seq<Byte>, cur: nat) returns (r: Option<U32>, cur': nat)
    ensures cur <= cur'
    ensures match Uvarint(Suffix(data, cur))
            case None => r == None
            case Some(Read(v, rest)) => r == Some(v) && cur < cur' <= |data| && Suffix(data, cur') == rest
  {
    var result: U32, shift := 0, 0;
    cur' := cur;
    while cur' < |data|
      invariant cur <= cur' && (cur < cur' ==> cur' <= |data|)
      invariant UvarintFrom(Suffix(data, cur'), result, shift) == Uvarint(Suffix(data, cur))
      decreases |data| - cur'
    {
      var b := data[cur'];
      assert Suffix(data, cur')[1..] == Suffix(data, cur' + 1);
      cur' := cur' + 1;
      result := AddGroup(result, b, shift);
      if b < 128 {
        return Some(result), cur';
      }
      shift := shift + 7;
      if shift >= 32 {
        return None, cur';
      }
    }
    return None, cur';
  }

  // ---- Pc-value tables ----

  /**
   * A decoded table: steps of a value change that holds for so many program counters. It ends with a zero value
   * change, or is cut short by the end of the data, before a step or in the middle of one.
   */
  datatype Table = End | Cut(vdelta: I32) | Step(vdelta: I32, pcdelta: U32, next: Table)

  function ZigZag(u: U32): I32 {
    if u % 2 == 1 then -(u / 2) - 1 else u / 2
  }

  /** Addition on 32-bit words, signed and unsigned. */
  function WrapAdd(a: I32, b: I32): I32 {
    (a + b + 0x8000_0000) % TWO_32 - 0x8000_0000
  }

  function WrapPc(pc: U32, d: U32): U32 {
    (pc + d) % TWO_32
  }

  function ParseTable(s: seq<Byte>, first: bool): Table
    decreases |s|
  {
    match Uvarint(s)
    case None => End
    case Some(Read(u, rest)) =>
      if u == 0 && !first then End
      else
        match Uvarint(rest)
        case None => Cut(ZigZag(u))
        case Some(Read(d, rest')) => Step(ZigZag(u), d, ParseTable(rest', false))
  }

  /** The value in effect at `target`: that of the first step that ends beyond it. */
  function Value(table: Table, val: I32, pc: U32, target: U32): Option<I32> {
    match table
    case End => None
    case Cut(_) => None
    case Step(vd, pd, next) =>
      if target < WrapPc(pc, pd) then Some(WrapAdd(val, vd)) else Value(next, WrapAdd(val, vd), WrapPc(pc, pd), target)
  }

  method PcValue(data: seq<Byte>, tableOff: nat, entry: U32, target: U32) returns (r: Option<I32>)
    ensures r == Value(ParseTable(Suffix(data, tableOff), true), -1, entry, target)
  {
    var cur, val: I32, pc: U32, first := tableOff, -1, entry, true;
    hide Uvarint, UvarintFrom, ZigZag, WrapAdd, WrapPc;
    while true
      invariant Value(ParseTable(Suffix(data, cur), first), val, pc, target)
             == Value(ParseTable(Suffix(data, tableOff), true), -1, entry, target)
      decreases |Suffix(data, cur)|
    {
      var uvdelta, cur1 := ReadUvarint(data, cur);
      if uvdelta.None? {
        return None;
      }
      if uvdelta.value == 0 && !first {
        return None;
      }
      first := false;
      val := WrapAdd(val, ZigZag(uvdelta.value));
      var pcdelta, cur2 := ReadUvarint(data, cur1);
      if pcdelta.None? {
        return None;
      }
      pc := WrapPc(pc, pcdelta.value);
      cur := cur2;
      if target < pc {
        return Some(val);
      }
    }
  }

  // ---- Rows ----

  /** A frame size from `pc` on; none where a function's table ends. */
  datatype Row = Row(pc: nat, size: Option<I32>)

  function Rows(table: Table, val: I32, pc: U32, textOff: nat): (rows: seq<Row>)
    ensures rows != [] && rows[0].pc == textOff + pc
  {
    match table
    case End => [Row(textOff + pc, None)]
    case Cut(vd) => [Row(textOff + pc, Some(WrapAdd(val, vd))), Row(textOff + pc, None)]
    case Step(vd, pd, next) =>
      [Row(textOff + pc, Some(WrapAdd(val, vd)))] + Rows(next, WrapAdd(val, vd), WrapPc(pc, pd), textOff)
  }

  /** By program counter, and an end marker before a size at the same one. */
  predicate Leq(a: Row, b: Row) {
    a.pc < b.pc || (a.pc == b.pc && (a.size.None? || b.size.Some?))
  }

  ghost predicate Sorted(rows: seq<Row>) {
    forall i, j :: 0 <= i < j < |rows| ==> Leq(rows[i], rows[j])
  }

  /** Stable: a row stays ahead of the rows with the same key that followed it. */
  function Insert(r: Row, rows: seq<Row>): seq<Row> {
    if rows == [] || Leq(r, rows[0]) then [r] + rows else [rows[0]] + Insert(r, rows[1..])
  }

  function StableSort(rows: seq<Row>): seq<Row> {
    if rows == [] then [] else Insert(rows[0], StableSort(rows[1..]))
  }

  lemma {:induction false} InsertSorts(r: Row, rows: seq<Row>)
    requires Sorted(rows)
    ensures Sorted(Insert(r, rows)) && multiset(Insert(r, rows)) == multiset(rows) + multiset{r}
  {
    if rows == [] || Leq(r, rows[0]) {
    } else {
      assert rows == [rows[0]] + rows[1..];
      InsertSorts(r, rows[1..]);
      var tail := Insert(r, rows[1..]);
      forall k | 0 <= k < |tail|
        ensures Leq(rows[0], tail[k])
      {
        assert tail[k] in multiset(tail);
        assert tail[k] == r || tail[k] in multiset(rows[1..]);
      }
    }
  }

  lemma {:induction false} SortSorts(rows: seq<Row>)
    ensures Sorted(StableSort(rows)) && multiset(StableSort(rows)) == multiset(rows)
  {
    if rows == [] {
    } else {
      assert rows == [rows[0]] + rows[1..];
      SortSorts(rows[1..]);
      InsertSorts(rows[0], StableSort(rows[1..]));
    }
  }

  lemma {:induction false} SortedStays(rows: seq<Row>)
    requires Sorted(rows)
    ensures StableSort(rows) == rows
  {
    if rows == [] {
    } else {
      SortedStays(rows[1..]);
      assert |rows| > 1 ==> Leq(rows[0], rows[1]);
      assert rows == [rows[0]] + rows[1..];
    }
  }

  /** What a search for the last row at or below `a` finds. */
  function Lookup(rows: seq<Row>, a: nat): Option<I32> {
    if rows == [] then None
    else if rows[|rows| - 1].pc <= a then rows[|rows| - 1].size
    else Lookup(rows[..|rows| - 1], a)
  }

  lemma RowsAssociate(a: seq<Row>, r: Row, b: seq<Row>)
    ensures a + [r] + b == a + ([r] + b)
  {
  }

  // ---- The function table ----

  datatype GoPclntab = GoPclntab(data: seq<Byte>, textOff: nat, nfunc: nat, funcnameOff: nat, functabOff: nat,
                                pctabOff: nat) {

    /** What parsing the header has established. */
    predicate Parsed() {
      nfunc > 0 && functabOff + (nfunc + 1) * 8 <= |data|
    }

    function Entry(i: nat): U32
      requires Parsed() && i <= nfunc
    {
      FromLe32(data[functabOff + i * 8..functabOff + i * 8 + 4])
    }

    function FuncOff(i: nat): U32
      requires Parsed() && i <= nfunc
    {
      FromLe32(data[functabOff + i * 8 + 4..functabOff + i * 8 + 8])
    }

    /** Where the frame sizes of a function start in the data. */
    function PcspOff(i: nat): Option<nat>
      requires Parsed() && i <= nfunc
    {
      var pos := functabOff + FuncOff(i) + 16;
      if pos + 4 <= |data| then Some(pctabOff + FromLe32(data[pos..pos + 4])) else None
    }

    function TableOf(i: nat): Option<Table>
      requires Parsed() && i <= nfunc
    {
      match PcspOff(i)
      case None => None
      case Some(off) => Some(ParseTable(Suffix(data, off), true))
    }

    ghost predicate Ascending() {
      Parsed() && forall i, j :: 0 <= i <= j <= nfunc ==> Entry(i) <= Entry(j)
    }

    /** The last of the first `n` functions that starts at or below `q`. */
    function LastAtOrBelow(q: U32, n: nat): (i: nat)
      requires Parsed() && 0 < n <= nfunc && Entry(0) <= q
      ensures i < n && Entry(i) <= q
      ensures forall j :: i < j < n ==> Entry(j) > q
    {
      if n == 1 || Entry(n - 1) <= q then n - 1 else LastAtOrBelow(q, n - 1)
    }

    function FuncAt(q: U32): (i: Option<nat>)
      requires Parsed()
      ensures i.Some? <==> Entry(0) <= q < Entry(nfunc)
      ensures i.Some? ==> i.value < nfunc && Entry(i.value) <= q
      ensures i.Some? ==> forall j :: i.value < j <= nfunc ==> Entry(j) > q
    {
      if q < Entry(0) || q >= Entry(nfunc) then None else Some(LastAtOrBelow(q, nfunc))
    }

    /** The binary search finds the function that contains `q`, if there is one. */
    method FindFunc(q: U32) returns (i: Option<nat>)
      requires Ascending()
      ensures i == FuncAt(q)
    {
      hide Entry, LastAtOrBelow;
      if q < Entry(0) || q >= Entry(nfunc) {
        return None;
      }
      var lo: nat, hi: nat := 0, nfunc;
      while lo + 1 < hi
        invariant lo < hi <= nfunc && Entry(lo) <= q < Entry(hi)
      {
        var mid := (lo + hi) / 2;
        if Entry(mid) <= q {
          lo := mid;
        } else {
          hi := mid;
        }
      }
      ghost var r := FuncAt(q).value;
      assert !(r < lo) && !(hi <= r);
      i := Some(lo);
    }

    /** The address relative to the start of the text, when it can be one. */
    function TextRelative(addr: nat): (q: Option<U32>)
      ensures q.Some? <==> textOff <= addr < textOff + TWO_32
      ensures q.Some? ==> q.value == addr - textOff
    {
      if textOff <= addr && addr - textOff < TWO_32 then Some(addr - textOff) else None
    }

    /** The frame size at an address, decoded on the spot. */
    function FrameSize(addr: nat): Option<I32>
      requires Parsed()
    {
      match TextRelative(addr)
      case None => None
      case Some(q) =>
        match FuncAt(q)
        case None => None
        case Some(i) =>
          match TableOf(i)
          case None => None
          case Some(table) => Value(table, -1, Entry(i), q)
    }

    method ReadFrameSize(addr: nat) returns (r: Option<I32>)
      requires Ascending()
      ensures r == FrameSize(addr)
    {
      hide Value, ParseTable;
      var q := TextRelative(addr);
      if q.None? {
        return None;
      }
      var i := FindFunc(q.value);
      if i.None? {
        return None;
      }
      var off := PcspOff(i.value);
      if off.None? {
        return None;
      }
      r := PcValue(data, off.value, Entry(i.value), q.value);
    }

    /** The rows of one function; none at all when its record lies outside the data. */
    function RowsOf(i: nat): seq<Row>
      requires Parsed() && i <= nfunc
    {
      match TableOf(i)
      case None => []
      case Some(table) => Rows(table, -1, Entry(i), textOff)
    }

    function AllRows(n: nat): seq<Row>
      requires Parsed() && n <= nfunc
    {
      if n == 0 then [] else AllRows(n - 1) + RowsOf(n - 1)
    }

    /** Every function's table decoded into rows, sorted. */
    method PcspRows() returns (out: seq<Row>)
      requires Parsed()
      ensures out == StableSort(AllRows(nfunc))
    {
      hide StableSort, ParseTable, Rows, Suffix, Entry, PcspOff, FuncOff;
      out := [];
      for i := 0 to nfunc
        invariant out == AllRows(i)
      {
        var off := PcspOff(i);
        if off.None? {
          continue;
        }
        var rows := DecodeRows(off.value, Entry(i));
        out := out + rows;
      }
      out := StableSort(out);
    }

    method DecodeRows(off: nat, entry: U32) returns (out: seq<Row>)
      ensures out == Rows(ParseTable(Suffix(data, off), true), -1, entry, textOff)
    {
      hide Uvarint, UvarintFrom, ZigZag, WrapAdd, WrapPc;
      ghost var goal := Rows(ParseTable(Suffix(data, off), true), -1, entry, textOff);
      var cur, val: I32, pc: U32, first := off, -1, entry, true;
      out := [];
      while true
        invariant goal == out + Rows(ParseTable(Suffix(data, cur), first), val, pc, textOff)
        decreases |Suffix(data, cur)|
      {
        ghost var before := out;
        var uvdelta, cur1 := ReadUvarint(data, cur);
        if uvdelta.None? || (uvdelta.value == 0 && !first) {
          break;
        }
        first := false;
        val := WrapAdd(val, ZigZag(uvdelta.value));
        out := out + [Row(textOff + pc, Some(val))];
        var pcdelta, cur2 := ReadUvarint(data, cur1);
        if pcdelta.None? {
          RowsAssociate(before, out[|before|], [Row(textOff + pc, None)]);
          break;
        }
        pc := WrapPc(pc, pcdelta.value);
        cur := cur2;
        RowsAssociate(before, out[|before|], Rows(ParseTable(Suffix(data, cur), first), val, pc, textOff));
      }
      out := out + [Row(textOff + pc, None)];
    }
  }

  // ---- Rows and tables agree ----

  /**
   * The steps stay within 32 bits, the table is not cut short in the middle of a step, and its last step is not
   * empty.
   */
  predicate TableOk(table: Table, pc: U32) {
    match table
    case End => true
    case Cut(_) => false
    case Step(_, pd, next) => pc + pd < TWO_32 && (next.End? ==> pd > 0) && TableOk(next, pc + pd)
  }

  function EndPc(table: Table, pc: nat): nat {
    match table
    case End => pc
    case Cut(_) => pc
    case Step(_, pd, next) => EndPc(next, pc + pd)
  }

  lemma {:induction false} EndIsBeyond(table: Table, pc: U32)
    requires TableOk(table, pc)
    ensures EndPc(table, pc) >= pc && (table.Step? ==> EndPc(table, pc) > pc)
  {
    if !table.Step? {
    } else {
      EndIsBeyond(table.next, pc + table.pcdelta);
    }
  }

  /** All rows lie below `e`, but for end markers, which may lie at it. */
  ghost predicate Below(rows: seq<Row>, e: nat) {
    forall i :: 0 <= i < |rows| ==> rows[i].pc < e || (rows[i].pc == e && rows[i].size.None?)
  }

  /** All sizes lie below `e`, and all end markers at it: so it is with the rows of one function. */
  ghost predicate EndsAt(rows: seq<Row>, e: nat) {
    forall i :: 0 <= i < |rows| ==> if rows[i].size.Some? then rows[i].pc < e else rows[i].pc == e
  }

  ghost predicate Above(rows: seq<Row>, e: nat) {
    forall i :: 0 <= i < |rows| ==> rows[i].pc >= e
  }

  lemma AppendSorted(a: seq<Row>, b: seq<Row>, e: nat)
    requires Sorted(a) && Sorted(b) && Below(a, e) && Above(b, e)
    ensures Sorted(a + b)
  {
    forall i, j | 0 <= i < j < |a + b|
      ensures Leq((a + b)[i], (a + b)[j])
    {
      assert i >= |a| ==> (a + b)[i] == b[i - |a|];
      assert j >= |a| ==> (a + b)[j] == b[j - |a|];
    }
  }

  lemma {:induction false} RowsSorted(table: Table, val: I32, pc: U32, textOff: nat)
    requires TableOk(table, pc)
    ensures var rows := Rows(table, val, pc, textOff);
      && Sorted(rows) && Above(rows, textOff + pc) && EndsAt(rows, textOff + EndPc(table, pc))
      && rows[|rows| - 1] == Row(textOff + EndPc(table, pc), None)
  {
    EndIsBeyond(table, pc);
    if !table.Step? {
    } else {
      var pc' := pc + table.pcdelta;
      var v := WrapAdd(val, table.vdelta);
      RowsSorted(table.next, v, pc', textOff);
      EndIsBeyond(table.next, pc');
      hide WrapAdd, TableOk;
      StepSorted(Row(textOff + pc, Some(v)), Rows(table.next, v, pc', textOff), textOff + EndPc(table.next, pc'));
      assert Rows(table, val, pc, textOff) == [Row(textOff + pc, Some(v))] + Rows(table.next, v, pc', textOff);
    }
  }

  lemma StepSorted(r: Row, rows: seq<Row>, e: nat)
    requires Sorted(rows) && Above(rows, r.pc) && EndsAt(rows, e) && r.pc < e && r.size.Some?
    ensures Sorted([r] + rows) && EndsAt([r] + rows, e)
  {
    forall i, j | 0 <= i < j < |[r] + rows|
      ensures Leq(([r] + rows)[i], ([r] + rows)[j])
    {
      assert ([r] + rows)[j] == rows[j - 1];
      assert i > 0 ==> ([r] + rows)[i] == rows[i - 1];
    }
  }

  /** A search goes on into the front part exactly when the back part starts above the address. */
  lemma {:induction false} LookupAppend(a: seq<Row>, b: seq<Row>, x: nat)
    requires b != [] && Sorted(b)
    ensures Lookup(a + b, x) == if b[0].pc <= x then Lookup(b, x) else Lookup(a, x)
    decreases |b|
  {
    var n := |b| - 1;
    assert (a + b)[..|a| + n] == a + b[..n] && (a + b)[|a| + n] == b[n];
    if b[n].pc <= x {
      assert n > 0 ==> Leq(b[0], b[n]);
    } else if n > 0 {
      LookupAppend(a, b[..n], x);
    } else {
      assert a + b[..n] == a;
    }
  }

  lemma {:induction false} NothingBelow(rows: seq<Row>, x: nat)
    requires Above(rows, x + 1)
    ensures Lookup(rows, x) == None
  {
    if rows == [] {
    } else {
      NothingBelow(rows[..|rows| - 1], x);
    }
  }

  /** The rows of one table answer as the table does, from its entry on. */
  lemma {:induction false} RowsAnswer(table: Table, val: I32, pc: U32, textOff: nat, q: U32)
    requires TableOk(table, pc) && pc <= q
    ensures Lookup(Rows(table, val, pc, textOff), textOff + q) == Value(table, val, pc, q)
  {
    if !table.Step? {
    } else {
      var pc' := pc + table.pcdelta;
      var v := WrapAdd(val, table.vdelta);
      var first, rest := Row(textOff + pc, Some(v)), Rows(table.next, v, pc', textOff);
      assert Rows(table, val, pc, textOff) == [first] + rest;
      RowsSorted(table.next, v, pc', textOff);
      LookupAppend([first], rest, textOff + q);
      if pc' <= q {
        RowsAnswer(table.next, v, pc', textOff, q);
      }
    }
  }

  // ---- The whole table ----

  /** Each function's table is in order and ends where the next function starts, or before. */
  ghost predicate FuncOk(t: GoPclntab, i: nat)
    requires t.Parsed() && i < t.nfunc
  {
    t.TableOf(i).Some? ==>
      TableOk(t.TableOf(i).value, t.Entry(i)) && EndPc(t.TableOf(i).value, t.Entry(i)) <= t.Entry(i + 1)
  }

  ghost predicate WellFormed(t: GoPclntab) {
    t.Ascending() && forall i: nat :: i < t.nfunc ==> FuncOk(t, i)
  }

  lemma FuncRows(t: GoPclntab, i: nat)
    requires WellFormed(t) && i < t.nfunc
    ensures var rows := t.RowsOf(i);
      && Sorted(rows) && Above(rows, t.textOff + t.Entry(i)) && Below(rows, t.textOff + t.Entry(i + 1))
      && (rows != [] ==> rows[0].pc == t.textOff + t.Entry(i))
      && (rows != [] ==> rows[|rows| - 1].size == None && rows[|rows| - 1].pc <= t.textOff + t.Entry(i + 1))
  {
    assert FuncOk(t, i);
    hide WellFormed;
    if t.TableOf(i).Some? {
      RowsSorted(t.TableOf(i).value, -1, t.Entry(i), t.textOff);
    }
  }

  lemma EntriesRise(t: GoPclntab, i: nat, j: nat)
    requires WellFormed(t) && i <= j <= t.nfunc
    ensures t.Entry(i) <= t.Entry(j)
  {
  }

  lemma NoRows(e: nat)
    ensures Sorted([]) && Above([], e) && Below([], e)
  {
  }

  lemma BoundsAppend(a: seq<Row>, b: seq<Row>, low: nat, mid: nat, high: nat)
    requires Sorted(a) && Above(a, low) && Below(a, mid) && Sorted(b) && Above(b, mid) && Below(b, high)
    requires low <= mid <= high
    ensures Sorted(a + b) && Above(a + b, low) && Below(a + b, high)
  {
    AppendSorted(a, b, mid);
    hide Sorted;
  }

  lemma WellFormedIsParsed(t: GoPclntab)
    requires WellFormed(t)
    ensures t.Parsed()
  {
  }

  lemma {:induction false} AllRowsSorted(t: GoPclntab, n: nat)
    requires WellFormed(t) && n <= t.nfunc
    ensures var rows := t.AllRows(n);
      && Sorted(rows) && Above(rows, t.textOff + t.Entry(0)) && Below(rows, t.textOff + t.Entry(n))
  {
    hide GoPclntab.Entry, GoPclntab.RowsOf, Sorted, Above, Below;
    if n > 0 {
      AllRowsSorted(t, n - 1);
      FuncRows(t, n - 1);
      EntriesRise(t, 0, n - 1);
      EntriesRise(t, n - 1, n);
      BoundsAppend(t.AllRows(n - 1), t.RowsOf(n - 1), t.textOff + t.Entry(0), t.textOff + t.Entry(n - 1),
                   t.textOff + t.Entry(n));
    } else {
      NoRows(t.textOff + t.Entry(0));
    }
  }

  /** An address at or beyond the start of function `i` finds nothing in the rows before it. */
  lemma {:induction false} EarlierFunctionsEnded(t: GoPclntab, i: nat, x: nat)
    requires WellFormed(t) && i <= t.nfunc && t.textOff + t.Entry(i) <= x
    ensures Lookup(t.AllRows(i), x) == None
  {
    hide GoPclntab.Entry, GoPclntab.RowsOf, Sorted, Above, Below;
    if i == 0 {
    } else {
      var rows := t.RowsOf(i - 1);
      EntriesRise(t, i - 1, i);
      FuncRows(t, i - 1);
      if rows == [] {
        EarlierFunctionsEnded(t, i - 1, x);
        assert t.AllRows(i) == t.AllRows(i - 1);
      } else {
        var all := t.AllRows(i);
        assert all[|all| - 1] == rows[|rows| - 1];
      }
    }
  }

  /** The rows of the functions that start above an address do not matter for it. */
  lemma {:induction false} LaterFunctionsStart(t: GoPclntab, i: nat, n: nat, x: nat)
    requires WellFormed(t) && i <= n <= t.nfunc
    requires forall j :: i <= j < n ==> t.textOff + t.Entry(j) > x
    ensures Lookup(t.AllRows(n), x) == Lookup(t.AllRows(i), x)
    decreases n
  {
    hide GoPclntab.Entry, GoPclntab.RowsOf, Sorted, Above, Below, Lookup;
    if i == n {
    } else {
      LaterFunctionsStart(t, i, n - 1, x);
      FuncRows(t, n - 1);
      var rows := t.RowsOf(n - 1);
      if rows == [] {
        assert t.AllRows(n) == t.AllRows(n - 1);
      } else {
        LookupAppend(t.AllRows(n - 1), rows, x);
      }
    }
  }

  lemma FuncIsOk(t: GoPclntab, i: nat)
    requires WellFormed(t) && i < t.nfunc
    ensures t.TableOf(i).Some? ==> TableOk(t.TableOf(i).value, t.Entry(i))
  {
    assert FuncOk(t, i);
  }

  lemma LookupInFunction(t: GoPclntab, i: nat, q: U32)
    requires WellFormed(t) && i < t.nfunc && t.Entry(i) <= q
    ensures Lookup(t.AllRows(i + 1), t.textOff + q) ==
      match t.TableOf(i)
      case None => None
      case Some(table) => Value(table, -1, t.Entry(i), q)
  {
    hide GoPclntab.Entry, GoPclntab.TableOf, Sorted, Above, Below, Lookup, Value, WellFormed, TableOk;
    WellFormedIsParsed(t);
    FuncIsOk(t, i);
    FuncRows(t, i);
    EarlierFunctionsEnded(t, i, t.textOff + q);
    var rows := t.RowsOf(i);
    if t.TableOf(i).None? {
      assert t.AllRows(i + 1) == t.AllRows(i);
    } else {
      LookupAppend(t.AllRows(i), rows, t.textOff + q);
      RowsAnswer(t.TableOf(i).value, -1, t.Entry(i), t.textOff, q);
    }
  }

  /**
   * The precomputed rows give the frame size of every address: inside functions, between them, before the first
   * and after the last, and where the end of one function is the start of the next.
   */
  lemma RowsAgreeWithTables(t: GoPclntab, addr: nat)
    requires WellFormed(t)
    ensures Lookup(StableSort(t.AllRows(t.nfunc)), addr) == t.FrameSize(addr)
  {
    hide GoPclntab.Entry, GoPclntab.RowsOf, GoPclntab.TableOf, GoPclntab.AllRows, Sorted, Lookup, Value, WellFormed,
        Below, StableSort;
    assert t.Parsed() by { WellFormedIsParsed(t); }
    AllRowsSorted(t, t.nfunc);
    SortedStays(t.AllRows(t.nfunc));
    EntriesRise(t, 0, t.nfunc);
    if addr < t.textOff + t.Entry(0) {
      NothingBelow(t.AllRows(t.nfunc), addr);
    } else if addr >= t.textOff + t.Entry(t.nfunc) {
      EarlierFunctionsEnded(t, t.nfunc, addr);
    } else {
      var q := addr - t.textOff;
      var i := t.FuncAt(q).value;
      LaterFunctionsStart(t, i + 1, t.nfunc, addr);
      LookupInFunction(t, i, q);
    }
  }

  // ---- The stack walk ----

  /** A word of the captured stack, or nothing outside the capture. */
  type Stack = nat -> Option<U64>

  datatype Frame = Frame(pc: U64, sp: U64)

  function WrapAdd64(a: U64, b: U64): U64 {
    (a + b) % TWO_64
  }

  function WrapSub64(a: U64, b: U64): U64 {
    (a - b) % TWO_64
  }

  /** The frame size at every address of a module. */
  type FrameSizes = U64 -> Option<I32>

  ghost function SizesOf(t: GoPclntab): FrameSizes
    requires t.Parsed()
  {
    (a: U64) => if t.Parsed() then t.FrameSize(a) else None
  }

  /**
   * The caller's frame: its stack pointer lies one word above the return address, which lies above the callee's
   * frame. None when the address is no code of this module or the stack has no return address there.
   */
  function CallerOf(sizes: FrameSizes, base: U64, f: Frame, stack: Stack): Option<Frame> {
    match sizes(WrapSub64(f.pc, base))
    case None => None
    case Some(size) =>
      if size < 0 then None
      else
        var callerSp := WrapAdd64(f.sp, size);
        match stack(callerSp)
        case None => None
        case Some(ret) => if ret == 0 then None else Some(Frame(ret, WrapAdd64(callerSp, 8)))
  }

  /** What the walk visits from a frame on, when at most `budget` frames are wanted. */
  function Walk(sizes: FrameSizes, base: U64, f: Frame, stack: Stack, budget: nat): (frames: seq<Frame>)
    ensures |frames| <= budget
    decreases budget
  {
    if budget == 0 then []
    else
      match CallerOf(sizes, base, f, stack)
      case None => [f]
      case Some(caller) => [f] + Walk(sizes, base, caller, stack, budget - 1)
  }

  function Pcs(frames: seq<Frame>): (pcs: seq<U64>)
    ensures |pcs| == |frames|
  {
    seq(|frames|, i requires 0 <= i < |frames| => frames[i].pc)
  }

  lemma WalkPcs(sizes: FrameSizes, base: U64, f: Frame, stack: Stack, budget: nat)
    requires budget > 0
    ensures Pcs(Walk(sizes, base, f, stack, budget)) == [f.pc] +
      match CallerOf(sizes, base, f, stack)
      case None => []
      case Some(caller) => Pcs(Walk(sizes, base, caller, stack, budget - 1))
  {
    hide CallerOf;
  }

  method Unwind(t: GoPclntab, base: U64, pc0: U64, sp0: U64, stack: Stack, maxPcs: nat) returns (out: seq<U64>)
    requires t.Ascending()
    ensures out == Pcs(Walk(SizesOf(t), base, Frame(pc0, sp0), stack, maxPcs))
  {
    hide GoPclntab.FrameSize, GoPclntab.Ascending, WrapAdd64, WrapSub64, Walk, Pcs;
    AscendingIsParsed(t);
    out := [];
    var pc, sp := pc0, sp0;
    ghost var sizes := SizesOf(t);
    ghost var goal := Pcs(Walk(sizes, base, Frame(pc0, sp0), stack, maxPcs));
    while |out| < maxPcs
      invariant |out| <= maxPcs
      invariant goal == out + Pcs(Walk(sizes, base, Frame(pc, sp), stack, maxPcs - |out|))
    {
      WalkPcs(sizes, base, Frame(pc, sp), stack, maxPcs - |out|);
      out := out + [pc];
      var fs := t.ReadFrameSize(WrapSub64(pc, base));
      assert fs == sizes(WrapSub64(pc, base));
      if fs.None? || fs.value < 0 {
        break;
      }
      var callerSp := WrapAdd64(sp, fs.value);
      var ret := stack(callerSp);
      if ret.None? || ret.value == 0 {
        break;
      }
      pc := ret.value;
      sp := WrapAdd64(callerSp, 8);
    }
    WalkEmpty(sizes, base, Frame(pc, sp), stack);
  }

  lemma WalkEmpty(sizes: FrameSizes, base: U64, f: Frame, stack: Stack)
    ensures Pcs(Walk(sizes, base, f, stack, 0)) == []
  {
  }

  lemma AscendingIsParsed(t: GoPclntab)
    requires t.Ascending()
    ensures t.Parsed()
  {
  }

  // ---- The walk undoes the calls ----

  /** The frame sizes of a call chain are known, and a return address is never zero. */
  ghost predicate Chain(sizes: FrameSizes, base: U64, chain: seq<U64>) {
    && chain != []
    && (forall i :: 0 <= i < |chain| ==>
          SizeAt(sizes, base, chain[i]).Some? && SizeAt(sizes, base, chain[i]).value >= 0)
    && (forall i :: 0 < i < |chain| ==> chain[i] != 0)
  }

  ghost function SizeAt(sizes: FrameSizes, base: U64, pc: U64): Option<I32> {
    sizes(WrapSub64(pc, base))
  }

  datatype Built = Built(sp: int, words: map<int, U64>)

  /**
   * The stack that a call chain builds, leaf first: the outermost function finds a zero return address at `top`
   * and makes room for its frame; each call pushes a return address, and the callee makes room for its frame.
   */
  ghost function Build(sizes: FrameSizes, base: U64, chain: seq<U64>, top: nat): Built
    requires Chain(sizes, base, chain)
  {
    var size := SizeAt(sizes, base, chain[0]).value;
    if |chain| == 1 then Built(top - size, map[top := 0])
    else
      var caller := Build(sizes, base, chain[1..], top);
      Built(caller.sp - 8 - size, caller.words[caller.sp - 8 := chain[1]])
  }

  lemma {:induction false} BuiltFromTop(sizes: FrameSizes, base: U64, chain: seq<U64>, top: nat)
    requires Chain(sizes, base, chain)
    ensures var b := Build(sizes, base, chain, top);
      b.sp <= top && forall a :: a in b.words ==> b.sp <= a <= top
    decreases |chain|
  {
    hide SizeAt;
    if |chain| <= 1 {
    } else {
      BuiltFromTop(sizes, base, chain[1..], top);
    }
  }

  /** The captured stack has the pushed words; what the frames hold in between does not matter. */
  ghost predicate Captures(stack: Stack, words: map<int, U64>) {
    forall a: nat :: a in words ==> stack(a) == Some(words[a])
  }

  lemma OutermostHasNoCaller(sizes: FrameSizes, base: U64, chain: seq<U64>, top: U64, stack: Stack)
    requires Chain(sizes, base, chain) && |chain| == 1
    requires var b := Build(sizes, base, chain, top); 0 <= b.sp < TWO_64 && Captures(stack, b.words)
    ensures CallerOf(sizes, base, Frame(chain[0], Build(sizes, base, chain, top).sp), stack) == None
  {
    assert top in Build(sizes, base, chain, top).words;
  }

  lemma BuildStep(sizes: FrameSizes, base: U64, chain: seq<U64>, top: nat)
    requires Chain(sizes, base, chain) && |chain| > 1
    ensures Chain(sizes, base, chain[1..])
    ensures var caller, size := Build(sizes, base, chain[1..], top), SizeAt(sizes, base, chain[0]);
      && size.Some? && size.value >= 0 && chain[1] != 0 && caller.sp <= top && caller.sp - 8 !in caller.words
      && Build(sizes, base, chain, top).sp == caller.sp - 8 - size.value
      && Build(sizes, base, chain, top).words == caller.words[caller.sp - 8 := chain[1]]
  {
    hide SizeAt;
    BuiltFromTop(sizes, base, chain[1..], top);
  }

  lemma ReturnsTo(sizes: FrameSizes, base: U64, f: Frame, size: I32, stack: Stack, slot: nat, ret: U64)
    requires SizeAt(sizes, base, f.pc) == Some(size) && size >= 0 && f.sp + size == slot && slot + 8 < TWO_64
    requires stack(slot) == Some(ret) && ret != 0
    ensures CallerOf(sizes, base, f, stack) == Some(Frame(ret, slot + 8))
  {
    assert WrapAdd64(f.sp, size) == slot && WrapAdd64(slot, 8) == slot + 8;
    hide WrapAdd64, WrapSub64;
  }

  lemma CapturesLess(stack: Stack, words: map<int, U64>, slot: int, ret: U64)
    requires Captures(stack, words[slot := ret]) && slot !in words
    ensures Captures(stack, words) && (slot >= 0 ==> stack(slot) == Some(ret))
  {
    assert slot in words[slot := ret];
    assert forall a: nat :: a in words ==> a in words[slot := ret];
  }

  /** One call, from its caller's stack pointer down. */
  lemma CalledFrom(sizes: FrameSizes, base: U64, f: Frame, size: I32, stack: Stack, caller: Built, ret: U64)
    requires SizeAt(sizes, base, f.pc) == Some(size) && size >= 0 && ret != 0
    requires caller.sp < TWO_64 && caller.sp - 8 !in caller.words && f.sp == caller.sp - 8 - size
    requires Captures(stack, caller.words[caller.sp - 8 := ret])
    ensures caller.sp >= 0 && Captures(stack, caller.words)
    ensures CallerOf(sizes, base, f, stack) == Some(Frame(ret, caller.sp))
  {
    hide Captures, CallerOf, SizeAt;
    CapturesLess(stack, caller.words, caller.sp - 8, ret);
    ReturnsTo(sizes, base, f, size, stack, caller.sp - 8, ret);
  }

  lemma CallerIsFound(sizes: FrameSizes, base: U64, chain: seq<U64>, top: U64, stack: Stack)
    requires Chain(sizes, base, chain) && |chain| > 1
    requires var b := Build(sizes, base, chain, top); 0 <= b.sp < TWO_64 && Captures(stack, b.words)
    ensures Chain(sizes, base, chain[1..])
    ensures var caller := Build(sizes, base, chain[1..], top);
      && 0 <= caller.sp < TWO_64 && Captures(stack, caller.words)
      && caller.sp == Build(sizes, base, chain, top).sp + SizeAt(sizes, base, chain[0]).value + 8
      && CallerOf(sizes, base, Frame(chain[0], Build(sizes, base, chain, top).sp), stack) ==
          Some(Frame(chain[1], caller.sp))
  {
    hide Build, Chain, Captures, CallerOf, SizeAt, WrapSub64, WrapAdd64;
    BuildStep(sizes, base, chain, top);
    var caller := Build(sizes, base, chain[1..], top);
    var f := Frame(chain[0], Build(sizes, base, chain, top).sp);
    CalledFrom(sizes, base, f, SizeAt(sizes, base, chain[0]).value, stack, caller, chain[1]);
  }

  /**
   * The frames are those of the chain, leaf first, each stack pointer one frame and one return address above the
   * last.
   */
  ghost predicate Retraces(frames: seq<Frame>, sizes: FrameSizes, base: U64, chain: seq<U64>)
    requires Chain(sizes, base, chain)
  {
    && |frames| <= |chain|
    && (forall i :: 0 <= i < |frames| ==> frames[i].pc == chain[i])
    && (forall i, j :: 0 <= i && j == i + 1 && j < |frames| ==>
         frames[j].sp == frames[i].sp + SizeAt(sizes, base, chain[i]).value + 8)
  }

  lemma RetracesOneMore(f: Frame, frames: seq<Frame>, sizes: FrameSizes, base: U64, chain: seq<U64>)
    requires Chain(sizes, base, chain) && |chain| > 1 && f.pc == chain[0] && Retraces(frames, sizes, base, chain[1..])
    requires frames != [] ==> frames[0].sp == f.sp + SizeAt(sizes, base, chain[0]).value + 8
    ensures Retraces([f] + frames, sizes, base, chain)
  {
    hide SizeAt;
    var all := [f] + frames;
    forall i, j | 0 <= i && j == i + 1 && j < |all|
      ensures all[j].sp == all[i].sp + SizeAt(sizes, base, chain[i]).value + 8
    {
      assert all[j] == frames[i];
      if i > 0 {
        assert all[i] == frames[i - 1] && chain[i] == chain[1..][i - 1];
      }
    }
  }

  /**
   * On the stack that a call chain built, the walk finds the chain again, leaf first, up to the number of frames
   * wanted; and the stack pointer rises by the frame and the return address each time.
   */
  lemma {:induction false} WalkUndoesCalls(sizes: FrameSizes, base: U64, chain: seq<U64>, top: U64, stack: Stack,
                                           budget: nat)
    requires Chain(sizes, base, chain)
    requires var b := Build(sizes, base, chain, top); 0 <= b.sp < TWO_64 && Captures(stack, b.words)
    ensures var frames := Walk(sizes, base, Frame(chain[0], Build(sizes, base, chain, top).sp), stack, budget);
      && |frames| == (if budget < |chain| then budget else |chain|)
      && Retraces(frames, sizes, base, chain)
      && (frames != [] ==> frames[0].sp == Build(sizes, base, chain, top).sp)
    decreases |chain|
  {
    var f := Frame(chain[0], Build(sizes, base, chain, top).sp);
    hide Build, Captures, CallerOf, SizeAt;
    if budget == 0 {
    } else if |chain| == 1 {
      OutermostHasNoCaller(sizes, base, chain, top, stack);
    } else {
      CallerIsFound(sizes, base, chain, top, stack);
      WalkUndoesCalls(sizes, base, chain[1..], top, stack, budget - 1);
      var rest := Walk(sizes, base, Frame(chain[1], Build(sizes, base, chain[1..], top).sp), stack, budget - 1);
      RetracesOneMore(f, rest, sizes, base, chain);
    }
  }

  // ---- Tables as the linker writes them ----

  function UnZigZag(v: I32): (u: U32)
    ensures ZigZag(u) == v
  {
    if v >= 0 then 2 * v else -2 * v - 1
  }

  /** A table that ends properly: no step but the first may leave the value as it is. */
  predicate Encodable(table: Table, first: bool) {
    match table
    case End => !first
    case Cut(_) => false
    case Step(vd, _, next) => (first || vd != 0) && Encodable(next, false)
  }

  function EncodeTable(table: Table): seq<Byte> {
    match table
    case End => [0]
    case Cut(vd) => ProtoWire.VarintBytes(UnZigZag(vd))
    case Step(vd, pd, next) => ProtoWire.VarintBytes(UnZigZag(vd)) + (ProtoWire.VarintBytes(pd) + EncodeTable(next))
  }

  lemma AddGroupAdds(acc: U32, b: Byte, shift: nat)
    requires acc < Pow2(shift) && acc + ProtoWire.Place(b % 128, shift) < TWO_32
    ensures AddGroup(acc, b, shift) == acc + ProtoWire.Place(b % 128, shift)
  {
    hide Or, Pow2;
    OrDisjoint(acc, b % 128, shift);
  }

  lemma {:induction false} GroupsRead(v: nat, n: nat, rest: seq<Byte>, shift: nat, acc: U32)
    requires 1 <= n && v < ProtoWire.Pow128(n)
    requires acc < Pow2(shift) && acc + ProtoWire.Place(v, shift) < TWO_32
    requires shift + 7 * (n - 1) < 32
    ensures UvarintFrom(ProtoWire.Groups(v, n) + rest, acc, shift) == Some(Read(acc + ProtoWire.Place(v, shift), rest))
    decreases n
  {
    ProtoWire.PlaceSplit(v, shift);
    hide Pow2, ProtoWire.Place, AddGroup;
    var s := ProtoWire.Groups(v, n) + rest;
    assert s[0] == if n == 1 then v else v % 128 + 128;
    AddGroupAdds(acc, s[0], shift);
    if n > 1 {
      assert s[1..] == ProtoWire.Groups(v / 128, n - 1) + rest;
      GroupsRead(v / 128, n - 1, rest, shift + 7, AddGroup(acc, s[0], shift));
    } else {
      assert s[1..] == rest;
    }
  }

  lemma UvarintReads(v: U32, rest: seq<Byte>)
    ensures Uvarint(ProtoWire.VarintBytes(v) + rest) == Some(Read(v, rest))
  {
    var n := ProtoWire.GroupCount(v);
    assert n <= 5 by {
      if n > 5 {
        ProtoWire.Pow128Monotone(5, n - 1);
      }
      assert ProtoWire.Pow128(5) == 0x8_0000_0000;
    }
    assert ProtoWire.Place(v, 0) == v;
    GroupsRead(v, n, rest, 0, 0);
  }

  /** A table reads back step for step, whatever follows it. */
  lemma {:induction false} TableReadsBack(table: Table, first: bool, rest: seq<Byte>)
    requires Encodable(table, first)
    ensures ParseTable(EncodeTable(table) + rest, first) == table
  {
    hide Uvarint, ProtoWire.VarintBytes;
    match table
    case End =>
      ZeroReads(rest);
    case Step(vd, pd, next) =>
      var v, p, tail := ProtoWire.VarintBytes(UnZigZag(vd)), ProtoWire.VarintBytes(pd), EncodeTable(next) + rest;
      assert EncodeTable(table) + rest == v + (p + tail);
      UvarintReads(UnZigZag(vd), p + tail);
      UvarintReads(pd, tail);
      TableReadsBack(next, false, rest);
  }

  lemma ZeroReads(rest: seq<Byte>)
    ensures Uvarint([0] + rest) == Some(Read(0, rest))
  {
    assert ProtoWire.VarintBytes(0) == [0];
    UvarintReads(0, rest);
  }

  // ---- Names ----

  function NulAt(s: seq<Byte>): Option<nat> {
    if s == [] then None
    else if s[0] == 0 then Some(0)
    else match NulAt(s[1..]) case None => None case Some(n) => Some(n + 1)
  }

  /** The text at an offset, up to a NUL; nothing without one, outside the data, or when it is no UTF-8. */
  function CStrAt(data: seq<Byte>, off: nat): Option<seq<Byte>> {
    if off > |data| then None
    else
      match NulAt(data[off..])
      case None => None
      case Some(n) =>
        var text := UpTo(data[off..], n);
        if JsonText.DecodeAll(text).Some? then Some(text) else None
  }

  function UpTo(s: seq<Byte>, n: nat): seq<Byte> {
    if n <= |s| then s[..n] else s
  }

  /** The name of the function whose record lies at `funcOff`; a negative offset into the names is refused. */
  function NameOf(t: GoPclntab, funcOff: U32): Option<seq<Byte>> {
    var pos := t.functabOff + funcOff + 4;
    if pos + 4 > |t.data| then None
    else
      var nameOff := FromLe32(t.data[pos..pos + 4]);
      if nameOff >= 0x8000_0000 then None else CStrAt(t.data, t.funcnameOff + nameOff)
  }

  datatype Resolved = Resolved(name: seq<Byte>, offset: nat)

  /** The name of the function that contains an address, and how far into it the address lies. */
  function Resolution(t: GoPclntab, addr: nat): Option<Resolved>
    requires t.Parsed()
  {
    match t.TextRelative(addr)
    case None => None
    case Some(q) =>
      match t.FuncAt(q)
      case None => None
      case Some(i) =>
        match NameOf(t, t.FuncOff(i))
        case None => None
        case Some(name) => Some(Resolved(name, q - t.Entry(i)))
  }

  method Resolve(t: GoPclntab, addr: nat) returns (r: Option<Resolved>)
    requires t.Ascending()
    ensures r == Resolution(t, addr)
  {
    var q := t.TextRelative(addr);
    if q.None? {
      return None;
    }
    var i := t.FindFunc(q.value);
    if i.None? {
      return None;
    }
    var name := NameOf(t, t.FuncOff(i.value));
    if name.None? {
      return None;
    }
    r := Some(Resolved(name.value, q.value - t.Entry(i.value)));
  }

  // ---- The header ----

  const MAGIC_118: U32 := 0xffff_fff0
  const MAGIC_120: U32 := 0xffff_fff1
  const MAX_SECTION: nat := 256 * 1024 * 1024

  function WordAt(data: seq<Byte>, at: nat): Option<U64> {
    if at + 8 <= |data| then Some(FromLe64(data[at..at + 8])) else None
  }

  /** The section of a program whose text starts at `textOff`; nothing when its header is not one of this layout. */
  function Parse(data: seq<Byte>, textOff: nat): (t: Option<GoPclntab>)
    ensures t.Some? ==> t.value.Parsed()
  {
    if !(64 <= |data| <= MAX_SECTION) then None
    else
      var magic := FromLe32(data[..4]);
      if (magic != MAGIC_118 && magic != MAGIC_120) || data[7] != 8 then None
      else
        match (WordAt(data, 8), WordAt(data, 32), WordAt(data, 56), WordAt(data, 64))
        case (Some(nfunc), Some(funcnameOff), Some(pctabOff), Some(functabOff)) =>
          if nfunc == 0 || funcnameOff >= |data| || pctabOff >= |data| ||
              functabOff + (nfunc + 1) * 8 > |data| then None
          else Some(GoPclntab(data, textOff, nfunc, funcnameOff, functabOff, pctabOff))
        case _ => None
  }
}
