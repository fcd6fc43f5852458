/** The ustar archives of a recording: how they are written, and how a strict reader takes them apart again. */
module Tar {
  import opened Bits

  const BLOCK: nat := 512
  const SIZE_LIMIT: nat := 0x2_0000_0000 // one more than eleven octal digits hold

  // ---- Octal fields ----

  function Pow8(n: nat): (p: nat)
    ensures p >= 1
  {
    if n == 0 then 1 else 8 * Pow8(n - 1)
  }

  /** `n` octal digits, the most significant first. */
  function Octal(v: nat, n: nat): (s: seq<Byte>)
    requires v < Pow8(n)
    ensures |s| == n
    ensures forall i :: 0 <= i < n ==> 48 <= s[i] < 56
  {
    if n == 0 then [] else Octal(v / 8, n - 1) + [48 + v % 8]
  }

  /** Zero-padded digits and a NUL. */
  function OctalField(v: nat, width: nat): (s: seq<Byte>)
    requires width > 0 && v < Pow8(width - 1)
    ensures |s| == width
  {
    Octal(v, width - 1) + [0]
  }

  /** Digits up to a NUL; anything else is an error. */
  function ParseOctal(field: seq<Byte>, acc: nat): Option<nat> {
    if field == [] || field[0] == 0 then Some(acc)
    else if 48 <= field[0] < 56 then ParseOctal(field[1..], acc * 8 + (field[0] - 48))
    else None
  }

  lemma {:induction false} OctalParses(v: nat, n: nat, rest: seq<Byte>, acc: nat)
    requires v < Pow8(n)
    ensures ParseOctal(Octal(v, n) + rest, acc) == ParseOctal(rest, acc * Pow8(n) + v)
    decreases n
  {
    if n == 0 {
      assert Octal(v, 0) + rest == rest;
    } else {
      var rest' := [48 + v % 8] + rest;
      assert Octal(v, n) + rest == Octal(v / 8, n - 1) + rest';
      OctalParses(v / 8, n - 1, rest', acc);
      assert rest'[1..] == rest;
      Regroup(acc, Pow8(n - 1), v);
    }
  }

  lemma Regroup(acc: nat, p: nat, v: nat)
    ensures (acc * p + v / 8) * 8 + v % 8 == acc * (8 * p) + v
  {
  }

  lemma FieldParses(v: nat, width: nat)
    requires width > 0 && v < Pow8(width - 1)
    ensures ParseOctal(OctalField(v, width), 0) == Some(v)
  {
    OctalParses(v, width - 1, [0], 0);
  }

  // ---- Headers ----

  function Zeros(n: nat): (s: seq<Byte>)
    ensures |s| == n && forall i :: 0 <= i < n ==> s[i] == 0
  {
    seq(n, i => 0)
  }

  function Spaces(n: nat): (s: seq<Byte>)
    ensures |s| == n
  {
    seq(n, i => 32)
  }

  function Sum(s: seq<Byte>): nat {
    if s == [] then 0 else Sum(s[..|s| - 1]) + s[|s| - 1]
  }

  lemma {:induction false} SumBound(s: seq<Byte>)
    ensures Sum(s) <= 255 * |s|
  {
    if s == [] {
    } else {
      SumBound(s[..|s| - 1]);
    }
  }

  predicate Nameable(name: seq<Byte>) {
    |name| <= 100
  }

  predicate Fits(size: nat, mtime: nat) {
    size < SIZE_LIMIT && mtime < SIZE_LIMIT
  }

  lemma Powers()
    ensures Pow8(6) == 262144 && Pow8(7) == 2097152 && Pow8(11) == SIZE_LIMIT
  {
    assert Pow8(3) == 512;
    assert Pow8(7) == 2097152;
  }

  /** Everything before the checksum: name, mode, owner, group, size and time. */
  function Front(name: seq<Byte>, size: nat, mtime: nat): (s: seq<Byte>)
    requires Nameable(name) && Fits(size, mtime)
    ensures |s| == 148
  {
    Powers();
    name + Zeros(100 - |name|) + OctalField(0x1A4, 8) + OctalField(0, 8) + OctalField(0, 8)
    + OctalField(size, 12) + OctalField(mtime, 12)
  }

  const MAGIC: seq<Byte> := [117, 115, 116, 97, 114, 0]

  /** Everything behind it: a regular file, magic, version and no device. */
  function Back(): (s: seq<Byte>)
    ensures |s| == 356
  {
    Powers();
    [48] + Zeros(100) + MAGIC + [48, 48] + Zeros(64) + OctalField(0, 8) + OctalField(0, 8) + Zeros(167)
  }

  function ChecksumField(sum: nat): (s: seq<Byte>)
    requires sum < Pow8(6)
    ensures |s| == 8
  {
    Octal(sum, 6) + [0, 32]
  }

  /** The checksum counts its own field as spaces. */
  function HeaderSum(name: seq<Byte>, size: nat, mtime: nat): (sum: nat)
    requires Nameable(name) && Fits(size, mtime)
    ensures sum < Pow8(6)
  {
    SumBound(Front(name, size, mtime) + Spaces(8) + Back());
    Powers();
    Sum(Front(name, size, mtime) + Spaces(8) + Back())
  }

  function Header(name: seq<Byte>, size: nat, mtime: nat): (s: seq<Byte>)
    requires Nameable(name) && Fits(size, mtime)
    ensures |s| == BLOCK
  {
    Front(name, size, mtime) + ChecksumField(HeaderSum(name, size, mtime)) + Back()
  }

  datatype Error = NameTooLong | TooLarge | FieldOverflow | ChangedSize

  datatype Result<+T> = Ok(value: T) | Err(error: Error)

  function HeaderResult(name: seq<Byte>, size: nat, mtime: nat): Result<seq<Byte>> {
    if |name| > 100 then Err(NameTooLong)
    else if size >= SIZE_LIMIT then Err(TooLarge)
    else if mtime >= SIZE_LIMIT then Err(FieldOverflow) // the digits do not fit and the copy panics
    else Ok(Header(name, size, mtime))
  }

  /** Overwrite a stretch of the header. */
  method Put(h: array<Byte>, off: nat, bytes: seq<Byte>)
    requires off + |bytes| <= h.Length
    modifies h
    ensures h[..] == old(h[..off]) + bytes + old(h[off + |bytes|..])
  {
    ghost var was := h[..];
    for i := 0 to |bytes|
      invariant h[..] == was[..off] + bytes[..i] + was[off + i..]
    {
      h[off + i] := bytes[i];
    }
    assert bytes[..|bytes|] == bytes;
  }

  /** A header that has been filled up to some point and is still zero behind it. */
  ghost function Filled(done: seq<Byte>): seq<Byte>
    requires |done| <= BLOCK
  {
    done + Zeros(BLOCK - |done|)
  }

  lemma PutExtends(done: seq<Byte>, off: nat, bytes: seq<Byte>)
    requires |done| <= off && off + |bytes| <= BLOCK
    ensures var s := Filled(done);
      s[..off] + bytes + s[off + |bytes|..] == Filled(done + Zeros(off - |done|) + bytes)
  {
  }

  method PutNext(h: array<Byte>, ghost done: seq<Byte>, off: nat, bytes: seq<Byte>) returns (ghost done': seq<Byte>)
    requires h.Length == BLOCK && |done| <= off && off + |bytes| <= BLOCK && h[..] == Filled(done)
    modifies h
    ensures done' == done + Zeros(off - |done|) + bytes && h[..] == Filled(done')
  {
    PutExtends(done, off, bytes);
    Put(h, off, bytes);
    done' := done + Zeros(off - |done|) + bytes;
  }

  method HeaderFor(name: seq<Byte>, size: nat, mtime: nat) returns (r: Result<seq<Byte>>)
    ensures r == HeaderResult(name, size, mtime)
  {
    if |name| > 100 {
      return Err(NameTooLong);
    }
    if size >= SIZE_LIMIT {
      return Err(TooLarge);
    }
    if mtime >= SIZE_LIMIT {
      return Err(FieldOverflow);
    }
    var h := new Byte[BLOCK](i => 0);
    FillHeader(h, name, size, mtime);
    ghost var front, back := Front(name, size, mtime), Back();
    Put(h, 148, Spaces(8));
    assert h[..] == front + Spaces(8) + back;
    var sum := SumUp(h);
    Powers();
    SumBound(h[..]);
    PutChecksum(h, front, back, sum);
    r := Ok(h[..]);
  }

  method PutChecksum(h: array<Byte>, ghost front: seq<Byte>, ghost back: seq<Byte>, sum: nat)
    requires h.Length == BLOCK && |front| == 148 && h[..] == front + Spaces(8) + back && sum < Pow8(6)
    modifies h
    ensures h[..] == front + ChecksumField(sum) + back
  {
    hide Octal, Pow8;
    ghost var digits := Octal(sum, 6);
    BeforeChecksum(front, digits, back);
    Put(h, 148, Octal(sum, 6));
    Put(h, 154, [0, 32]);
  }

  lemma BeforeChecksum(front: seq<Byte>, digits: seq<Byte>, back: seq<Byte>)
    requires |front| == 148 && |digits| == 6
    ensures var s := front + Spaces(8) + back;
      var t := s[..148] + digits + s[154..];
      |s| >= 156 && t[..154] + [0, 32] + t[156..] == front + (digits + [0, 32]) + back
  {
    var s := front + Spaces(8) + back;
    var t := s[..148] + digits + s[154..];
    assert t[..154] == front + digits && t[156..] == back;
  }

  method FillHeader(h: array<Byte>, name: seq<Byte>, size: nat, mtime: nat)
    requires h.Length == BLOCK && h[..] == Zeros(BLOCK) && Nameable(name) && Fits(size, mtime)
    modifies h
    ensures h[..] == Front(name, size, mtime) + Zeros(8) + Back()
  {
    hide *;
    FillFront(h, name, size, mtime);
    FillBack(h, Front(name, size, mtime));
  }

  method FillFront(h: array<Byte>, name: seq<Byte>, size: nat, mtime: nat)
    requires h.Length == BLOCK && h[..] == Zeros(BLOCK) && Nameable(name) && Fits(size, mtime)
    modifies h
    ensures h[..] == Filled(Front(name, size, mtime))
  {
    Powers();
    assert |name| <= 100 && size < SIZE_LIMIT && mtime < SIZE_LIMIT;
    ghost var done := [];
    assert h[..] == Filled(done);
    hide *;
    done := PutNext(h, done, 0, name);
    done := PutNext(h, done, 100, OctalField(0x1A4, 8));
    done := PutNext(h, done, 108, OctalField(0, 8));
    done := PutNext(h, done, 116, OctalField(0, 8));
    done := PutNext(h, done, 124, OctalField(size, 12));
    done := PutNext(h, done, 136, OctalField(mtime, 12));
    FilledFront(name, size, mtime);
  }

  lemma FilledFront(name: seq<Byte>, size: nat, mtime: nat)
    requires Nameable(name) && Fits(size, mtime)
    ensures Pow8(7) > 0x1A4 && size < Pow8(11) && mtime < Pow8(11)
    ensures var z: seq<Byte> := [] + Zeros(0);
      z + name + Zeros(100 - |name|) + OctalField(0x1A4, 8) + Zeros(0) + OctalField(0, 8) + Zeros(0) + OctalField(0, 8)
      + Zeros(0) + OctalField(size, 12) + Zeros(0) + OctalField(mtime, 12) == Front(name, size, mtime)
  {
    Powers();
    hide Pow8, Octal, OctalField;
    NoZeros();
  }

  lemma NoZeros()
    ensures Zeros(0) == [] && [] + Zeros(0) == []
    ensures forall s: seq<Byte> :: s + Zeros(0) == s
  {
  }

  function Middle(front: seq<Byte>): (s: seq<Byte>)
    requires |front| == 148
    ensures |s| == 265
  {
    front + Zeros(8) + [48] + Zeros(100) + MAGIC + [48, 48]
  }

  method FillBack(h: array<Byte>, ghost front: seq<Byte>)
    requires h.Length == BLOCK && |front| == 148 && h[..] == Filled(front)
    modifies h
    ensures h[..] == front + Zeros(8) + Back()
  {
    hide *;
    FillType(h, front);
    FillDevices(h, front);
  }

  method FillType(h: array<Byte>, ghost front: seq<Byte>)
    requires h.Length == BLOCK && |front| == 148 && h[..] == Filled(front)
    modifies h
    ensures h[..] == Filled(Middle(front))
  {
    NoZeros();
    assert |MAGIC| == 6;
    hide Filled, Zeros;
    ghost var done := PutNext(h, front, 156, [48]);
    done := PutNext(h, done, 257, MAGIC);
    done := PutNext(h, done, 263, [48, 48]);
  }

  method FillDevices(h: array<Byte>, ghost front: seq<Byte>)
    requires h.Length == BLOCK && |front| == 148 && h[..] == Filled(Middle(front))
    modifies h
    ensures h[..] == front + Zeros(8) + Back()
  {
    Powers();
    assert BLOCK == 512;
    hide *;
    ghost var done := PutNext(h, Middle(front), 329, OctalField(0, 8));
    done := PutNext(h, done, 337, OctalField(0, 8));
    FilledBack(front);
  }

  lemma FilledBack(front: seq<Byte>)
    requires |front| == 148
    ensures Pow8(7) > 0
    ensures var done := Middle(front) + Zeros(64) + OctalField(0, 8) + Zeros(0) + OctalField(0, 8);
      |done| == 345 && Filled(done) == front + Zeros(8) + Back()
  {
    Powers();
    hide Pow8, Octal, OctalField, Zeros, Middle, Back;
    NoZeros();
    var field := OctalField(0, 8);
    Rebracket(front + Zeros(8), [48] + Zeros(100), MAGIC + [48, 48], Zeros(64), field, Zeros(167));
    BackGroups(field);
    MiddleGroups(front);
  }

  lemma Rebracket(a: seq<Byte>, b: seq<Byte>, c: seq<Byte>, d: seq<Byte>, e: seq<Byte>, f: seq<Byte>)
    ensures a + b + c + d + e + e + f == a + (b + c + d + e + e + f)
  {
  }

  lemma MiddleGroups(front: seq<Byte>)
    requires |front| == 148
    ensures Middle(front) == front + Zeros(8) + ([48] + Zeros(100)) + (MAGIC + [48, 48])
  {
    hide Zeros;
  }

  lemma BackGroups(field: seq<Byte>)
    requires Pow8(7) > 0 && field == OctalField(0, 8)
    ensures Back() == [48] + Zeros(100) + (MAGIC + [48, 48]) + Zeros(64) + field + field + Zeros(167)
  {
    hide Pow8, Octal, OctalField, Zeros;
  }

  method SumUp(h: array<Byte>) returns (sum: nat)
    ensures sum == Sum(h[..])
  {
    sum := 0;
    for i := 0 to h.Length
      invariant sum == Sum(h[..i])
    {
      assert h[..i + 1][..i] == h[..i];
      sum := sum + h[i];
    }
    assert h[..h.Length] == h[..];
  }

  // ---- Archives ----

  /** A file to archive: what its metadata said, and what reading it gave, read by read; an empty read is its end. */
  datatype Source = Source(name: seq<Byte>, size: nat, mtime: nat, chunks: seq<seq<Byte>>)

  function Content(chunks: seq<seq<Byte>>): seq<Byte> {
    if chunks == [] || chunks[0] == [] then [] else chunks[0] + Content(chunks[1..])
  }

  function Pad(n: nat): (p: nat)
    ensures p < BLOCK && (n + p) % BLOCK == 0
  {
    PadFills(n);
    (BLOCK - n % BLOCK) % BLOCK
  }

  lemma PadFills(n: nat)
    ensures (n + (BLOCK - n % BLOCK) % BLOCK) % BLOCK == 0
  {
    var q, r := n / BLOCK, n % BLOCK;
    if r != 0 {
      DivModUnique(n + (BLOCK - r), BLOCK, q + 1, 0);
    }
  }

  /** A header, the content, and zeros up to the next block. */
  function MemberBytes(m: Source): Result<seq<Byte>> {
    match HeaderResult(m.name, m.size, m.mtime)
    case Err(e) => Err(e)
    case Ok(header) =>
      var content := Content(m.chunks);
      if |content| != m.size then Err(ChangedSize) else Ok(header + content + Zeros(Pad(|content|)))
  }

  function MembersBytes(ms: seq<Source>): Result<seq<Byte>> {
    if ms == [] then Ok([])
    else
      match MembersBytes(ms[..|ms| - 1])
      case Err(e) => Err(e)
      case Ok(before) =>
        match MemberBytes(ms[|ms| - 1])
        case Err(e) => Err(e)
        case Ok(last) => Ok(before + last)
  }

  /** Two zero blocks end the archive. */
  function Archive(ms: seq<Source>): Result<seq<Byte>> {
    match MembersBytes(ms)
    case Err(e) => Err(e)
    case Ok(bytes) => Ok(bytes + Zeros(2 * BLOCK))
  }

  /** One chunk more, or the end. */
  lemma ContentStep(out: seq<Byte>, rest: seq<seq<Byte>>)
    ensures rest == [] || rest[0] == [] ==> out + Content(rest) == out
    ensures rest != [] && rest[0] != [] ==> out + Content(rest) == out + rest[0] + Content(rest[1..])
  {
  }

  method CopyContent(chunks: seq<seq<Byte>>) returns (out: seq<Byte>, copied: nat)
    ensures out == Content(chunks) && copied == |out|
  {
    hide Content;
    out, copied := [], 0;
    var i := 0;
    assert chunks[0..] == chunks;
    while i < |chunks|
      invariant i <= |chunks| && Content(chunks) == out + Content(chunks[i..]) && copied == |out|
    {
      var buf := chunks[i];
      ContentStep(out, chunks[i..]);
      assert chunks[i..][1..] == chunks[i + 1..];
      if buf == [] {
        break;
      }
      out := out + buf;
      copied := copied + |buf|;
      i := i + 1;
    }
    ContentStep(out, chunks[i..]);
  }

  lemma {:induction false} ErrorStays(ms: seq<Source>, i: nat)
    requires i <= |ms| && MembersBytes(ms[..i]).Err?
    ensures MembersBytes(ms) == MembersBytes(ms[..i])
    decreases |ms| - i
  {
    hide MemberBytes;
    if i < |ms| {
      assert ms[..i + 1][..i] == ms[..i];
      ErrorStays(ms, i + 1);
    } else {
      assert ms[..i] == ms;
    }
  }

  /** The archive as a loop over the files; the result is how many bytes it took. */
  method WriteTar(ms: seq<Source>) returns (r: Result<nat>, out: seq<Byte>)
    ensures match Archive(ms)
            case Err(e) => r == Err(e)
            case Ok(bytes) => r == Ok(|bytes|) && out == bytes
  {
    hide HeaderResult, Content, Pad;
    out := [];
    var total := 0;
    for i := 0 to |ms|
      invariant MembersBytes(ms[..i]) == Ok(out) && total == |out|
    {
      assert ms[..i + 1][..i] == ms[..i];
      var m := ms[i];
      var header := HeaderFor(m.name, m.size, m.mtime);
      if header.Err? {
        ErrorStays(ms, i + 1);
        return Err(header.error), out;
      }
      var content, copied := CopyContent(m.chunks);
      if copied != m.size {
        ErrorStays(ms, i + 1);
        return Err(ChangedSize), out;
      }
      var pad := Pad(copied);
      ghost var before := out;
      out := out + header.value;
      total := total + |header.value|;
      out := out + content;
      total := total + copied;
      out := out + Zeros(pad);
      total := total + pad;
      assert out == before + (header.value + content + Zeros(pad));
    }
    assert ms[..|ms|] == ms;
    out := out + Zeros(2 * BLOCK);
    total := total + 2 * BLOCK;
    r := Ok(total);
  }

  lemma HeaderIsBlock(name: seq<Byte>, size: nat, mtime: nat)
    ensures var r := HeaderResult(name, size, mtime); r.Ok? ==> |r.value| == BLOCK
  {
    hide Header;
  }

  predicate WholeBlocks(n: nat) {
    n % BLOCK == 0
  }

  lemma BlocksAdd(a: nat, b: nat)
    requires WholeBlocks(a) && WholeBlocks(b)
    ensures WholeBlocks(a + b)
  {
  }

  lemma MemberIsBlocks(m: Source)
    ensures MemberBytes(m).Ok? ==> WholeBlocks(|MemberBytes(m).value|)
  {
    HeaderIsBlock(m.name, m.size, m.mtime);
    hide HeaderResult, Content;
    var content := Content(m.chunks);
    assert WholeBlocks(|content| + Pad(|content|));
    hide WholeBlocks, Pad;
    assert WholeBlocks(BLOCK) by { OneBlock(); }
    BlocksAdd(BLOCK, |content| + Pad(|content|));
  }

  lemma OneBlock()
    ensures WholeBlocks(BLOCK) && WholeBlocks(2 * BLOCK) && WholeBlocks(0)
  {
  }

  lemma {:induction false} MembersAreBlocks(ms: seq<Source>)
    ensures MembersBytes(ms).Ok? ==> WholeBlocks(|MembersBytes(ms).value|)
  {
    hide WholeBlocks, MemberBytes;
    OneBlock();
    if ms != [] && MembersBytes(ms).Ok? {
      var n := |ms| - 1;
      MembersAreBlocks(ms[..n]);
      MemberIsBlocks(ms[n]);
      BlocksAdd(|MembersBytes(ms[..n]).value|, |MemberBytes(ms[n]).value|);
    }
  }

  /** The archive is a whole number of blocks. */
  lemma ArchiveIsBlocks(ms: seq<Source>)
    ensures Archive(ms).Ok? ==> WholeBlocks(|Archive(ms).value|)
  {
    hide WholeBlocks, MembersBytes;
    OneBlock();
    MembersAreBlocks(ms);
    if Archive(ms).Ok? {
      BlocksAdd(|MembersBytes(ms).value|, 2 * BLOCK);
    }
  }

  // ---- The strict reader ----

  datatype Meta = Meta(name: seq<Byte>, size: nat, mtime: nat)
  datatype Member = Member(meta: Meta, content: seq<Byte>)

  function UpToNul(s: seq<Byte>): seq<Byte> {
    if s == [] || s[0] == 0 then [] else [s[0]] + UpToNul(s[1..])
  }

  /** Only a regular file with the right magic, well-formed numbers and a matching checksum. */
  function ReadHeader(h: seq<Byte>): Option<Meta>
    requires |h| == BLOCK
  {
    if h[156] != 48 || h[257..263] != MAGIC then None
    else
      match (ParseOctal(h[148..156], 0), ParseOctal(h[124..136], 0), ParseOctal(h[136..148], 0))
      case (Some(sum), Some(size), Some(mtime)) =>
        if sum == Sum(h[..148] + Spaces(8) + h[156..]) then Some(Meta(UpToNul(h[..100]), size, mtime)) else None
      case _ => None
  }

  /** All members up to the two zero blocks, which must be the end. */
  function ReadTar(s: seq<Byte>): Option<seq<Member>>
    decreases |s|
  {
    if s == Zeros(2 * BLOCK) then Some([])
    else if |s| < BLOCK then None
    else
      match ReadHeader(s[..BLOCK])
      case None => None
      case Some(meta) =>
        var end := BLOCK + meta.size + Pad(meta.size);
        if end > |s| then None
        else
          match ReadTar(s[end..])
          case None => None
          case Some(rest) => Some([Member(meta, s[BLOCK..BLOCK + meta.size])] + rest)
  }

  lemma {:induction false} NameReads(name: seq<Byte>, rest: seq<Byte>)
    requires rest == [] || rest[0] == 0
    ensures UpToNul(name + rest) == UpToNul(name)
  {
    if name == [] {
      assert name + rest == rest;
    } else {
      assert (name + rest)[1..] == name[1..] + rest;
      NameReads(name[1..], rest);
    }
  }

  /** A name is read back as it was exactly when it holds no NUL. */
  lemma {:induction false} NameIsWholeIff(name: seq<Byte>)
    ensures UpToNul(name) == name <==> 0 !in name
  {
    if name == [] {
    } else {
      NameIsWholeIff(name[1..]);
      assert name == [name[0]] + name[1..];
    }
  }

  lemma FrontFields(name: seq<Byte>, size: nat, mtime: nat)
    requires Nameable(name) && Fits(size, mtime)
    ensures size < Pow8(11) && mtime < Pow8(11)
    ensures var f := Front(name, size, mtime);
      f[..100] == name + Zeros(100 - |name|) && f[124..136] == OctalField(size, 12) &&
          f[136..148] == OctalField(mtime, 12)
  {
    Powers();
    hide Pow8, Octal, OctalField;
  }

  lemma HeaderParts(front: seq<Byte>, sum: seq<Byte>, back: seq<Byte>)
    requires |front| == 148 && |sum| == 8 && |back| == 356
    ensures var h := front + sum + back;
      && h[..148] == front && h[148..156] == sum && h[156..] == back
      && h[..100] == front[..100] && h[124..136] == front[124..136] && h[136..148] == front[136..148]
      && h[156] == back[0] && h[257..263] == back[101..107]
  {
  }

  lemma BackIs()
    ensures Back()[0] == 48 && Back()[101..107] == MAGIC
  {
    Powers();
    hide Pow8, Octal, OctalField;
  }

  lemma ChecksumParses(sum: nat)
    requires sum < Pow8(6)
    ensures ParseOctal(ChecksumField(sum), 0) == Some(sum)
  {
    OctalParses(sum, 6, [0, 32], 0);
  }

  lemma HeaderReads(name: seq<Byte>, size: nat, mtime: nat)
    requires Nameable(name) && Fits(size, mtime)
    ensures ReadHeader(Header(name, size, mtime)) == Some(Meta(UpToNul(name), size, mtime))
  {
    hide Front, Back, ChecksumField, HeaderSum, ParseOctal, Sum, Octal, OctalField, Pow8, Zeros;
    HeaderParts(Front(name, size, mtime), ChecksumField(HeaderSum(name, size, mtime)), Back());
    BackIs();
    FrontFields(name, size, mtime);
    FieldParses(size, 12);
    FieldParses(mtime, 12);
    ChecksumParses(HeaderSum(name, size, mtime));
    SumIs(name, size, mtime);
    NameReads(name, Zeros(100 - |name|));
  }

  lemma SumIs(name: seq<Byte>, size: nat, mtime: nat)
    requires Nameable(name) && Fits(size, mtime)
    ensures HeaderSum(name, size, mtime) == Sum(Front(name, size, mtime) + Spaces(8) + Back())
  {
  }

  // ---- The round trip ----

  /** What a reader can see of a file: a name ends at its first NUL. */
  function MemberOf(m: Source): Member {
    Member(Meta(UpToNul(m.name), m.size, m.mtime), Content(m.chunks))
  }

  function MembersOf(ms: seq<Source>): (r: seq<Member>)
    ensures |r| == |ms|
  {
    seq(|ms|, i requires 0 <= i < |ms| => MemberOf(ms[i]))
  }

  lemma MemberReads(m: Source, rest: seq<Byte>)
    requires MemberBytes(m).Ok? && ReadTar(rest).Some?
    ensures ReadTar(MemberBytes(m).value + rest) == Some([MemberOf(m)] + ReadTar(rest).value)
  {
    hide ReadHeader, Header, Content, Pad, Zeros;
    var header, content := Header(m.name, m.size, m.mtime), Content(m.chunks);
    var s := MemberBytes(m).value + rest;
    assert |header| == BLOCK && |content| == m.size;
    HeaderReads(m.name, m.size, m.mtime);
    assert s[..BLOCK] == header && s[BLOCK..BLOCK + m.size] == content;
    assert s[BLOCK + m.size + Pad(m.size)..] == rest;
    assert s != Zeros(2 * BLOCK) by { NotZero(header, s); }
  }

  lemma NotZero(header: seq<Byte>, s: seq<Byte>)
    requires |header| == BLOCK && |s| >= BLOCK && s[..BLOCK] == header && ReadHeader(header).Some?
    ensures s != Zeros(2 * BLOCK)
  {
    assert s[156] == header[156];
  }

  lemma {:induction false} MembersRead(ms: seq<Source>, rest: seq<Byte>)
    requires MembersBytes(ms).Ok? && ReadTar(rest).Some?
    ensures ReadTar(MembersBytes(ms).value + rest) == Some(MembersOf(ms) + ReadTar(rest).value)
    decreases |ms|
  {
    hide ReadTar, MemberBytes, MemberOf;
    if ms == [] {
      assert MembersBytes(ms).value + rest == rest;
      assert MembersOf(ms) + ReadTar(rest).value == ReadTar(rest).value;
    } else {
      var n := |ms| - 1;
      var last := MemberBytes(ms[n]).value;
      MemberReads(ms[n], rest);
      MembersRead(ms[..n], last + rest);
      assert MembersBytes(ms).value + rest == MembersBytes(ms[..n]).value + (last + rest);
      assert MembersOf(ms) + ReadTar(rest).value == MembersOf(ms[..n]) + ([MemberOf(ms[n])] + ReadTar(rest).value);
    }
  }

  /** A strict reader gets back every member, in order, with its name up to a NUL, its size, time and content. */
  lemma ArchiveReadsBack(ms: seq<Source>)
    requires Archive(ms).Ok?
    ensures ReadTar(Archive(ms).value) == Some(MembersOf(ms))
  {
    hide MembersBytes, MembersOf;
    MembersRead(ms, Zeros(2 * BLOCK));
    assert MembersOf(ms) + [] == MembersOf(ms);
  }

  function WholeOf(ms: seq<Source>): (r: seq<Member>)
    ensures |r| == |ms|
  {
    seq(|ms|, i requires 0 <= i < |ms| => Member(Meta(ms[i].name, ms[i].size, ms[i].mtime), Content(ms[i].chunks)))
  }

  /** What is read back is what was archived if and only if no name holds a NUL. */
  lemma ArchiveIsFaithfulIff(ms: seq<Source>)
    requires Archive(ms).Ok?
    ensures ReadTar(Archive(ms).value) == Some(WholeOf(ms)) <==> forall i :: 0 <= i < |ms| ==> 0 !in ms[i].name
  {
    hide Archive, ReadTar, Content, UpToNul;
    ArchiveReadsBack(ms);
    var read, whole := MembersOf(ms), WholeOf(ms);
    forall i | 0 <= i < |ms|
      ensures read[i] == whole[i] <==> 0 !in ms[i].name
    {
      NameIsWholeIff(ms[i].name);
    }
    if forall i :: 0 <= i < |ms| ==> 0 !in ms[i].name {
      assert read == whole;
    }
  }

  /** Writing succeeds exactly when every name and number fits and every file was as long as it said. */
  lemma {:induction false} SucceedsIff(ms: seq<Source>)
    ensures Archive(ms).Ok? <==>
      forall i :: 0 <= i < |ms| ==>
        Nameable(ms[i].name) && Fits(ms[i].size, ms[i].mtime) && |Content(ms[i].chunks)| == ms[i].size
    decreases |ms|
  {
    hide Header, Content, Zeros;
    if ms == [] {
    } else {
      var n := |ms| - 1;
      SucceedsIff(ms[..n]);
    }
  }

  // ---- The header byte by byte ----

  /**
   * The fields of a ustar header, with the positions and the fixed texts that the format has for them: a regular file
   * with mode 0644, no owner and no device.
   */
  lemma HeaderLayout(name: seq<Byte>, size: nat, mtime: nat)
    requires Nameable(name) && Fits(size, mtime)
    ensures var h := Header(name, size, mtime);
      && h[..100] == name + Zeros(100 - |name|) && h[100..108] == Ascii("0000644") + [0]
      && h[108..116] == Ascii("0000000") + [0] && h[116..124] == Ascii("0000000") + [0]
      && h[156..157] == Ascii("0") && h[257..265] == Ascii("ustar") + [0] + Ascii("00")
      && h[329..337] == Ascii("0000000") + [0] && h[337..345] == Ascii("0000000") + [0]
      && (forall i :: 157 <= i < 257 || 265 <= i < 329 || 345 <= i < 512 ==> h[i] == 0)
  {
    Powers();
    Modes();
    hide Pow8, Octal, OctalField, ChecksumField, HeaderSum;
    var front, back := Front(name, size, mtime), Back();
    FrontTexts(name, size, mtime);
    BackTexts();
    hide Front, Back;
    HeaderIs(front, ChecksumField(HeaderSum(name, size, mtime)), back);
  }

  lemma OctalStep(v: nat, n: nat)
    requires n > 0 && v < Pow8(n)
    ensures v / 8 < Pow8(n - 1) && Octal(v, n) == Octal(v / 8, n - 1) + [48 + v % 8]
  {
  }

  lemma {:induction false} OctalZero(n: nat)
    ensures Octal(0, n) == seq(n, i => 48)
  {
    if n == 0 {
    } else {
      OctalZero(n - 1);
    }
  }

  lemma Modes()
    ensures Pow8(7) > 0x1A4
    ensures OctalField(0x1A4, 8) == Ascii("0000644") + [0] && OctalField(0, 8) == Ascii("0000000") + [0]
  {
    Powers();
    hide Octal, Pow8;
    OctalStep(420, 7);
    OctalStep(52, 6);
    OctalStep(6, 5);
    OctalZero(4);
    OctalZero(7);
    assert Octal(420, 7) == [48, 48, 48, 48] + [54] + [52] + [52];
    assert Ascii("0000644") == [48, 48, 48, 48] + [54] + [52] + [52];
  }

  lemma FrontTexts(name: seq<Byte>, size: nat, mtime: nat)
    requires Nameable(name) && Fits(size, mtime)
    ensures Pow8(7) > 0x1A4
    ensures var f := Front(name, size, mtime);
      && f[..100] == name + Zeros(100 - |name|) && f[100..108] == OctalField(0x1A4, 8)
      && f[108..116] == OctalField(0, 8) && f[116..124] == OctalField(0, 8)
  {
    Powers();
    hide Pow8, Octal, OctalField;
  }

  lemma BackTexts()
    ensures Pow8(7) > 0
    ensures var b := Back();
      && b[0..1] == Ascii("0") && b[101..109] == Ascii("ustar") + [0] + Ascii("00")
      && b[173..181] == OctalField(0, 8) && b[181..189] == OctalField(0, 8)
      && (forall i :: 1 <= i < 101 || 109 <= i < 173 || 189 <= i < 356 ==> b[i] == 0)
  {
    Powers();
    hide Pow8, Octal, OctalField;
  }

  lemma HeaderIs(front: seq<Byte>, sum: seq<Byte>, back: seq<Byte>)
    requires |front| == 148 && |sum| == 8 && |back| == 356
    ensures var h := front + sum + back;
      && (forall a, b :: 0 <= a <= b <= 148 ==> h[a..b] == front[a..b])
      && (forall a, b :: 156 <= a <= b <= 512 ==> h[a..b] == back[a - 156..b - 156])
      && (forall i :: 156 <= i < 512 ==> h[i] == back[i - 156])
  {
  }

  /** The checksum is the sum of all bytes with its own eight bytes counted as 32 each, in six digits. */
  lemma ChecksumLayout(name: seq<Byte>, size: nat, mtime: nat)
    requires Nameable(name) && Fits(size, mtime)
    ensures var h := Header(name, size, mtime);
      var sum := Sum(h[..148] + [32, 32, 32, 32, 32, 32, 32, 32] + h[156..]);
      sum < 262144 && h[148..156] == Octal(sum, 6) + [0, 32]
  {
    Powers();
    SumIs(name, size, mtime);
    HeaderParts(Front(name, size, mtime), ChecksumField(HeaderSum(name, size, mtime)), Back());
    hide Front, Back, HeaderSum, Sum, Octal, Pow8;
    assert Spaces(8) == [32, 32, 32, 32, 32, 32, 32, 32];
  }
}
