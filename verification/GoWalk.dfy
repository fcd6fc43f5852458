/** The stack walk over a loaded program: from the functions of its section and the words on the stack to its calls. */
module GoWalk {
  import opened Bits
  import opened GoPclntabs
  import opened GoLayout

  /** A function of the list, and the offset in the text at which it has been left. */
  datatype Call = Call(func: nat, at: U32)

  /** Where the call is in memory when the program is loaded at `base`. */
  function AddressOf(t: GoPclntab, base: U64, c: Call): U64 {
    (base + (t.textOff + c.at)) % TWO_64
  }

  predicate GoodCall(t: GoPclntab, fs: seq<Func>, end: U32, c: Call) {
    && c.func < |fs| && fs[c.func].entry <= c.at < NextEntry(fs, end, c.func) && t.textOff + c.at < TWO_64
    && SizeOf(fs, c).Some? && SizeOf(fs, c).value >= 0
  }

  /** How deep the frame is, by the function's own segments. */
  function SizeOf(fs: seq<Func>, c: Call): Option<I32>
    requires c.func < |fs|
  {
    SizeIn(fs[c.func].segments, fs[c.func].entry, c.at)
  }

  /**
   * What calls, leaf first, have left on the stack from `sp` on: above each frame stands the address at which the
   * caller goes on, and above the outermost one a zero.
   */
  ghost predicate Laid(t: GoPclntab, fs: seq<Func>, end: U32, base: U64, calls: seq<Call>, sp: nat, stack: Stack) {
    calls != [] ==>
      && GoodCall(t, fs, end, calls[0])
      && var slot := sp + SizeOf(fs, calls[0]).value;
         if |calls| == 1 then slot < TWO_64 && stack(slot) == Some(0)
         else
           && slot + 8 < TWO_64 && stack(slot) == Some(AddressOf(t, base, calls[1]))
           && AddressOf(t, base, calls[1]) != 0
           && Laid(t, fs, end, base, calls[1..], slot + 8, stack)
  }

  /** The frames of the calls: where each goes on, and its stack pointer. */
  ghost function Frames(t: GoPclntab, fs: seq<Func>, end: U32, base: U64, calls: seq<Call>, sp: U64, stack: Stack)
      : (r: seq<Frame>)
    requires Laid(t, fs, end, base, calls, sp, stack)
    ensures |r| == |calls|
  {
    if calls == [] then []
    else
      var f := Frame(AddressOf(t, base, calls[0]), sp);
      if |calls| == 1 then [f]
      else [f] + Frames(t, fs, end, base, calls[1..], sp + SizeOf(fs, calls[0]).value + 8, stack)
  }

  lemma BackToText(base: U64, a: U64)
    ensures WrapSub64((base + a) % TWO_64, base) == a
  {
    if base + a < TWO_64 {
      assert (base + a) % TWO_64 == base + a;
    } else {
      assert (base + a) % TWO_64 == base + a - TWO_64;
      assert (a - TWO_64) % TWO_64 == a;
    }
  }

  /** The size that the walk looks up at a call is the one that the function's segments give. */
  lemma SizeFound(t: GoPclntab, fs: seq<Func>, end: U32, base: U64, c: Call)
    requires GoodFuncs(fs, end) && Holds(t, fs, end) && GoodCall(t, fs, end, c)
    ensures t.Parsed() && SizeAt(SizesOf(t), base, AddressOf(t, base, c)) == SizeOf(fs, c)
  {
    hide GoodFuncs, Holds, GoPclntab.FrameSize, GoPclntab.Ascending, Resolution, SizeIn, WrapSub64;
    BackToText(base, t.textOff + c.at);
    HoldsParsed(t, fs, end);
    TableMeansFunctions(t, fs, end, c.func, c.at);
  }

  lemma NoCaller(sizes: FrameSizes, base: U64, f: Frame, size: I32, stack: Stack)
    requires SizeAt(sizes, base, f.pc) == Some(size) && size >= 0 && f.sp + size < TWO_64
    requires stack(f.sp + size) == Some(0)
    ensures CallerOf(sizes, base, f, stack) == None
  {
    assert WrapAdd64(f.sp, size) == f.sp + size;
    hide WrapAdd64, WrapSub64;
  }

  /**
   * The walk finds the calls again: on a stack that calls of the section's functions have left, whatever else is on it
   * and wherever the program is loaded, it returns where each call goes on, leaf first, and where its frame is.
   */
  lemma {:induction false} WalkFindsCalls(t: GoPclntab, fs: seq<Func>, end: U32, base: U64, calls: seq<Call>, sp: U64,
                                          stack: Stack, budget: nat)
    requires GoodFuncs(fs, end) && Holds(t, fs, end) && calls != [] && Laid(t, fs, end, base, calls, sp, stack)
    ensures t.Parsed()
    ensures Walk(SizesOf(t), base, Frame(AddressOf(t, base, calls[0]), sp), stack, budget) ==
      Frames(t, fs, end, base, calls, sp, stack)[..if budget < |calls| then budget else |calls|]
    decreases |calls|
  {
    hide GoodFuncs, Holds, GoPclntab.FrameSize, SizesOf, CallerOf, SizeAt, AddressOf, SizeOf;
    HoldsParsed(t, fs, end);
    if budget > 0 {
      SizeFound(t, fs, end, base, calls[0]);
      var f, size := Frame(AddressOf(t, base, calls[0]), sp), SizeOf(fs, calls[0]).value;
      if |calls| == 1 {
        NoCaller(SizesOf(t), base, f, size, stack);
      } else {
        ReturnsTo(SizesOf(t), base, f, size, stack, sp + size, AddressOf(t, base, calls[1]));
        WalkFindsCalls(t, fs, end, base, calls[1..], sp + size + 8, stack, budget - 1);
      }
    }
  }
}
