/**
 * The inspector connection over which a heap snapshot arrives: frames as RFC 6455 section 5.2 has them, messages
 * put together from fragments, chunks taken out of the messages, and pings answered on the way.
 */
module WebSocket {
  import opened Bits
  import Json
  import JsonText

  const MAX_FRAME: nat := 0x2000_0000 // 512 MiB
  const CONTINUATION: nat := 0
  const TEXT: nat := 1
  const CLOSE: nat := 8
  const PING: nat := 9
  const PONG: nat := 10

  const KEY_CHUNK: seq<Byte> := [34, 99, 104, 117, 110, 107, 34] // "chunk"
  const KEY_ID: seq<Byte> := [34, 105, 100, 34, 58, 49]          // "id":1

  datatype Frame = Frame(fin: bool, opcode: nat, payload: seq<Byte>)

  // ---- Big-endian lengths ----

  function Be(v: nat, n: nat): (s: seq<Byte>)
    ensures |s| == n
  {
    if n == 0 then [] else Be(v / 256, n - 1) + [v % 256]
  }

  function FromBe(s: seq<Byte>): nat {
    if s == [] then 0 else FromBe(s[..|s| - 1]) * 256 + s[|s| - 1]
  }

  function Pow256(n: nat): nat {
    if n == 0 then 1 else 256 * Pow256(n - 1)
  }

  lemma {:induction false} BeReads(v: nat, n: nat)
    requires v < Pow256(n)
    ensures FromBe(Be(v, n)) == v
  {
    if n == 0 {
    } else {
      BeReads(v / 256, n - 1);
      assert Be(v, n)[..n - 1] == Be(v / 256, n - 1);
    }
  }

  // ---- Frames from the server ----

  datatype Read = Got(frame: Frame, size: nat) | EndOfStream | Oversized

  /** What the length field says, and how many bytes the header takes; nothing when the stream ends in it. */
  function ReadLength(s: seq<Byte>): Option<(nat, nat)>
    requires |s| >= 2
  {
    var short := s[1] % 128;
    if short == 126 then (if |s| < 4 then None else Some((FromBe(s[2..4]), 4)))
    else if short == 127 then (if |s| < 10 then None else Some((FromBe(s[2..10]), 10)))
    else Some((short, 2))
  }

  function ReadFrame(s: seq<Byte>): (r: Read)
    ensures r.Got? ==> 0 < r.size <= |s|
  {
    if |s| < 2 then EndOfStream
    else
      match ReadLength(s)
      case None => EndOfStream
      case Some((len, header)) =>
        if len > MAX_FRAME then Oversized
        else if header + len > |s| then EndOfStream
        else Got(Frame(s[0] >= 128, s[0] % 16, s[header..header + len]), header + len)
  }

  /** How a server may write the length: any form that has room for it. */
  datatype LengthForm = Seven | Sixteen | SixtyFour

  datatype Encoding = Encoding(frame: Frame, reserved: nat, form: LengthForm)

  predicate Encodable(e: Encoding) {
    && e.frame.opcode < 16 && e.reserved < 8 && |e.frame.payload| <= MAX_FRAME
    && match e.form
       case Seven => |e.frame.payload| < 126
       case Sixteen => |e.frame.payload| < 65536
       case SixtyFour => true
  }

  function LengthBytes(form: LengthForm, len: nat): seq<Byte>
    requires form.Seven? ==> len < 126
  {
    match form
    case Seven => [len]
    case Sixteen => [126] + Be(len, 2)
    case SixtyFour => [127] + Be(len, 8)
  }

  function Encode(e: Encoding): seq<Byte>
    requires Encodable(e)
  {
    [(if e.frame.fin then 128 else 0) + e.reserved * 16 + e.frame.opcode] + LengthBytes(e.form, |e.frame.payload|) +
        e.frame.payload
  }

  lemma LengthFieldReads(b: Byte, marker: Byte, ext: seq<Byte>, rest: seq<Byte>)
    requires |ext| == (if marker % 128 == 126 then 2 else if marker % 128 == 127 then 8 else 0)
    ensures ReadLength([b] + ([marker] + ext) + rest)
         == Some((if marker % 128 < 126 then marker % 128 else FromBe(ext), 2 + |ext|))
  {
    hide FromBe;
    var s := [b] + ([marker] + ext) + rest;
    assert s[1] == marker && s[2..2 + |ext|] == ext;
  }

  lemma BeFits(len: nat)
    ensures len < 65536 ==> FromBe(Be(len, 2)) == len
    ensures len < TWO_64 ==> FromBe(Be(len, 8)) == len
  {
    assert Pow256(2) == 65536;
    assert Pow256(8) == TWO_64 by { assert Pow256(4) == 0x1_0000_0000; }
    hide Be, FromBe, Pow256;
    if len < 65536 {
      BeReads(len, 2);
    }
    if len < TWO_64 {
      BeReads(len, 8);
    }
  }

  lemma LengthReads(b: Byte, form: LengthForm, len: nat, rest: seq<Byte>)
    requires len <= MAX_FRAME && (form.Seven? ==> len < 126) && (form.Sixteen? ==> len < 65536)
    ensures ReadLength([b] + LengthBytes(form, len) + rest) == Some((len, 1 + |LengthBytes(form, len)|))
  {
    BeFits(len);
    hide Be, FromBe, ReadLength;
    match form
    case Seven =>
      assert [len] + [] == [len];
      LengthFieldReads(b, len, [], rest);
    case Sixteen => LengthFieldReads(b, 126, Be(len, 2), rest);
    case SixtyFour => LengthFieldReads(b, 127, Be(len, 8), rest);
  }

  lemma FirstByteReads(e: Encoding, b: Byte)
    requires Encodable(e) && b == (if e.frame.fin then 128 else 0) + e.reserved * 16 + e.frame.opcode
    ensures (b >= 128 <==> e.frame.fin) && b % 16 == e.frame.opcode
  {
  }

  /** A server's frame reads back, in whichever form its length is written. */
  lemma FrameReads(e: Encoding, rest: seq<Byte>)
    requires Encodable(e)
    ensures ReadFrame(Encode(e) + rest) == Got(e.frame, |Encode(e)|)
  {
    var b: Byte := (if e.frame.fin then 128 else 0) + e.reserved * 16 + e.frame.opcode;
    var n := |e.frame.payload|;
    var len := LengthBytes(e.form, n);
    var s := Encode(e) + rest;
    assert s == [b] + len + (e.frame.payload + rest);
    LengthReads(b, e.form, n, e.frame.payload + rest);
    FirstByteReads(e, b);
    assert |len| >= 1 && n <= MAX_FRAME;
    hide LengthBytes, ReadLength, Encode, Encodable;
    var h := 1 + |len|;
    assert s[0] == b && s[h..h + n] == e.frame.payload && |s| >= h + n;
  }

  // ---- Frames to the server ----

  /** The length field of a client's frame, with the mask bit. */
  function ClientLength(len: nat): seq<Byte> {
    if len < 126 then [128 + len]
    else if len < 65536 then [254] + Be(len, 2)
    else [255] + Be(len % TWO_64, 8)
  }

  /** A final frame under the mask key zero. */
  function ClientFrame(opcode: nat, payload: seq<Byte>): seq<Byte>
    requires opcode < 16
  {
    [128 + opcode] + ClientLength(|payload|) + [0, 0, 0, 0] + payload
  }

  method SendFrame(opcode: nat, payload: seq<Byte>) returns (sent: seq<Byte>)
    requires opcode < 16
    ensures sent == ClientFrame(opcode, payload)
  {
    hide Be;
    var hdr: seq<Byte> := [128 + opcode];
    var len := |payload|;
    if len < 126 {
      hdr := hdr + [128 + len];
    } else if len < 65536 {
      hdr := hdr + [254];
      hdr := hdr + Be(len, 2);
    } else {
      hdr := hdr + [255];
      hdr := hdr + Be(len % TWO_64, 8);
    }
    hdr := hdr + [0, 0, 0, 0];
    sent := hdr + payload;
  }

  function Xor(a: nat, b: nat): nat
    decreases a + b
  {
    if a == 0 && b == 0 then 0 else (if a % 2 != b % 2 then 1 else 0) + 2 * Xor(a / 2, b / 2)
  }

  lemma {:induction false} XorZero(a: nat)
    ensures Xor(a, 0) == a
  {
    if a == 0 {
    } else {
      XorZero(a / 2);
    }
  }

  /** A server takes the mask off again, as RFC 6455 section 5.3 says. */
  function Unmask(key: seq<Byte>, payload: seq<Byte>): seq<nat>
    requires |key| == 4
  {
    seq(|payload|, i requires 0 <= i < |payload| => Xor(payload[i], key[i % 4]))
  }

  /** What a server reads: opcode and unmasked payload of a final masked frame. */
  function ServerReads(s: seq<Byte>): Option<(nat, seq<nat>)> {
    if |s| < 2 || s[0] < 128 || s[1] < 128 then None
    else
      match ReadLength(s)
      case None => None
      case Some((len, header)) =>
        if header + 4 + len > |s| then None
        else Some((s[0] % 16, Unmask(s[header..header + 4], s[header + 4..header + 4 + len])))
  }

  lemma UnmaskZero(payload: seq<Byte>)
    ensures Unmask([0, 0, 0, 0], payload) == payload
  {
    forall i | 0 <= i < |payload|
      ensures Unmask([0, 0, 0, 0], payload)[i] == payload[i]
    {
      assert [0, 0, 0, 0][i % 4] == 0;
      XorZero(payload[i]);
    }
  }

  lemma ClientLengthReads(b: Byte, len: nat, rest: seq<Byte>)
    requires len < TWO_64
    ensures ClientLength(len)[0] >= 128
    ensures ReadLength([b] + ClientLength(len) + rest) == Some((len, 1 + |ClientLength(len)|))
  {
    BeFits(len);
    hide Be, FromBe, ReadLength;
    if len < 126 {
      assert [128 + len] + [] == [128 + len];
      LengthFieldReads(b, 128 + len, [], rest);
    } else if len < 65536 {
      LengthFieldReads(b, 254, Be(len, 2), rest);
    } else {
      LengthFieldReads(b, 255, Be(len, 8), rest);
    }
  }

  /** The client's frames mean what was sent. */
  lemma ClientFrameReads(opcode: nat, payload: seq<Byte>, rest: seq<Byte>)
    requires opcode < 16 && |payload| < TWO_64
    ensures ServerReads(ClientFrame(opcode, payload) + rest) == Some((opcode, payload))
  {
    var b: Byte := 128 + opcode;
    var len := ClientLength(|payload|);
    var s := ClientFrame(opcode, payload) + rest;
    assert s == [b] + len + ([0, 0, 0, 0] + payload + rest);
    ClientLengthReads(b, |payload|, [0, 0, 0, 0] + payload + rest);
    hide ClientLength, ReadLength, Unmask;
    var h := 1 + |len|;
    assert s[h..h + 4] == [0, 0, 0, 0] && s[h + 4..h + 4 + |payload|] == payload;
    UnmaskZero(payload);
  }

  // ---- Putting messages together ----

  datatype Failure = ReadFailed | ClosedByServer

  /** The bytes written to the file and those sent to the server, and how it ended. */
  datatype Outcome = Done(out: seq<Byte>, sent: seq<Byte>) | Failed(failure: Failure, out: seq<Byte>, sent: seq<Byte>)

  function ChunkOf(m: seq<Byte>): Option<seq<Byte>> {
    Json.ExtractString(m, KEY_CHUNK)
  }

  predicate IsResponse(m: seq<Byte>) {
    ChunkOf(m).None? && Json.Find(m, KEY_ID).Some?
  }

  predicate IsData(f: Frame) {
    f.opcode == CONTINUATION || f.opcode == TEXT
  }

  /** What a complete message adds to the file. */
  function ChunkBytes(m: seq<Byte>): seq<Byte> {
    if ChunkOf(m).Some? then ChunkOf(m).value else []
  }

  function Pong(f: Frame): seq<Byte> {
    if f.opcode == PING then ClientFrame(PONG, f.payload) else []
  }

  /** The frames one after the other, up to the response; `message` is what has come of an unfinished message. */
  function Process(fs: seq<Frame>, message: seq<Byte>, out: seq<Byte>, sent: seq<Byte>): Outcome {
    if fs == [] then Failed(ReadFailed, out, sent)
    else
      var f := fs[0];
      if IsData(f) then
        var m := message + f.payload;
        if !f.fin then Process(fs[1..], m, out, sent)
        else if IsResponse(m) then Done(out, sent)
        else Process(fs[1..], [], out + ChunkBytes(m), sent)
      else if f.opcode == CLOSE then Failed(ClosedByServer, out, sent)
      else Process(fs[1..], message, out, sent + Pong(f))
  }

  /** The same on the bytes of the stream. */
  function ProcessStream(s: seq<Byte>, message: seq<Byte>, out: seq<Byte>, sent: seq<Byte>): Outcome
    decreases |s|
  {
    var r := ReadFrame(s);
    if !r.Got? then Failed(ReadFailed, out, sent)
    else
      var f, rest := r.frame, s[r.size..];
      if IsData(f) then
        var m := message + f.payload;
        if !f.fin then ProcessStream(rest, m, out, sent)
        else if IsResponse(m) then Done(out, sent)
        else ProcessStream(rest, [], out + ChunkBytes(m), sent)
      else if f.opcode == CLOSE then Failed(ClosedByServer, out, sent)
      else ProcessStream(rest, message, out, sent + Pong(f))
  }

  method SnapshotOverWs(stream: seq<Byte>) returns (r: Option<nat>, out: seq<Byte>, sent: seq<Byte>)
    ensures match ProcessStream(stream, [], [], [])
            case Done(o, s) => r == Some(|o|) && out == o && sent == s + ClientFrame(CLOSE, [])
            case Failed(_, o, s) => r == None && out == o && sent == s
  {
    hide ReadFrame, ClientFrame, Json.ExtractString, Json.Find;
    out, sent := [], [];
    var written := 0;
    var message := [];
    var pos := 0;
    ghost var goal := ProcessStream(stream, [], [], []);
    assert stream[0..] == stream;
    while true
      invariant pos <= |stream| && written == |out|
      invariant goal == ProcessStream(stream[pos..], message, out, sent)
      decreases |stream| - pos
    {
      var r := ReadFrame(stream[pos..]);
      if !r.Got? {
        return None, out, sent;
      }
      var f := r.frame;
      assert stream[pos..][r.size..] == stream[pos + r.size..];
      pos := pos + r.size;
      if f.opcode == TEXT || f.opcode == CONTINUATION {
        message := message + f.payload;
        if !f.fin {
          continue;
        }
        var msg := message;
        message := [];
        var chunk := Json.ExtractJsonString(msg, KEY_CHUNK);
        if chunk.Some? {
          out := out + chunk.value;
          written := written + |chunk.value|;
        } else if Json.Find(msg, KEY_ID).Some? {
          break;
        } else {
          assert out + [] == out;
        }
      } else if f.opcode == PING {
        var pong := SendFrame(PONG, f.payload);
        sent := sent + pong;
      } else if f.opcode == CLOSE {
        return None, out, sent;
      } else {
        assert sent + [] == sent;
      }
    }
    var close := SendFrame(CLOSE, []);
    sent := sent + close;
    r := Some(written);
  }

  // ---- Fragmentation does not matter ----

  function DataOf(fs: seq<Frame>): seq<Frame> {
    if fs == [] then [] else (if IsData(fs[0]) then [fs[0]] else []) + DataOf(fs[1..])
  }

  function Concat(parts: seq<seq<Byte>>): seq<Byte> {
    if parts == [] then [] else parts[0] + Concat(parts[1..])
  }

  /** A message in parts, as RFC 6455 section 5.4 sends it: all frames but the first continue, and the last is final. */
  function Fragments(parts: seq<seq<Byte>>, opcode: nat): seq<Frame> {
    if parts == [] then []
    else [Frame(|parts| == 1, opcode, parts[0])] + Fragments(parts[1..], CONTINUATION)
  }

  function AllFragments(split: seq<seq<seq<Byte>>>): seq<Frame> {
    if split == [] then [] else Fragments(split[0], TEXT) + AllFragments(split[1..])
  }

  /** The messages that a split was made from. */
  function MessagesOf(split: seq<seq<seq<Byte>>>): (ms: seq<seq<Byte>>)
    ensures |ms| == |split|
  {
    if split == [] then [] else [Concat(split[0])] + MessagesOf(split[1..])
  }

  /** What a sequence of messages adds to the file, up to the response. */
  function Chunks(ms: seq<seq<Byte>>): seq<Byte> {
    if ms == [] || IsResponse(ms[0]) then [] else ChunkBytes(ms[0]) + Chunks(ms[1..])
  }

  predicate Responds(ms: seq<seq<Byte>>) {
    ms != [] && (IsResponse(ms[0]) || Responds(ms[1..]))
  }

  ghost predicate StaysOpen(fs: seq<Frame>) {
    forall i :: 0 <= i < |fs| ==> fs[i].opcode != CLOSE
  }

  /** The messages that data frames make up after some bytes of a first one. */
  function Reassembled(data: seq<Frame>, message: seq<Byte>): seq<seq<Byte>> {
    if data == [] then []
    else if data[0].fin then [message + data[0].payload] + Reassembled(data[1..], [])
    else Reassembled(data[1..], message + data[0].payload)
  }

  lemma {:induction false} FragmentsReassemble(parts: seq<seq<Byte>>, opcode: nat, message: seq<Byte>, more: seq<Frame>)
    requires parts != []
    ensures Reassembled(Fragments(parts, opcode) + more, message) == [message + Concat(parts)] + Reassembled(more, [])
    decreases |parts|
  {
    var fs := Fragments(parts, opcode) + more;
    var tail := Fragments(parts[1..], CONTINUATION) + more;
    assert fs[1..] == tail && fs[0] == Frame(|parts| == 1, opcode, parts[0]);
    if |parts| == 1 {
      assert parts[1..] == [] && tail == more;
      assert parts[0] + [] == parts[0];
    } else {
      FragmentsReassemble(parts[1..], CONTINUATION, message + parts[0], more);
      assert message + parts[0] + Concat(parts[1..]) == message + Concat(parts);
    }
  }

  lemma {:induction false} SplitReassembles(split: seq<seq<seq<Byte>>>)
    requires forall i :: 0 <= i < |split| ==> split[i] != []
    ensures Reassembled(AllFragments(split), []) == MessagesOf(split)
  {
    if split == [] {
    } else {
      SplitReassembles(split[1..]);
      FragmentsReassemble(split[0], TEXT, [], AllFragments(split[1..]));
      assert [] + Concat(split[0]) == Concat(split[0]);
    }
  }

  lemma ChunksFirst(m: seq<Byte>, ms: seq<seq<Byte>>)
    ensures Chunks([m] + ms) == if IsResponse(m) then [] else ChunkBytes(m) + Chunks(ms)
    ensures Responds([m] + ms) <==> IsResponse(m) || Responds(ms)
  {
    hide IsResponse, ChunkBytes;
    assert ([m] + ms)[1..] == ms;
  }

  lemma StaysOpenRest(fs: seq<Frame>)
    requires StaysOpen(fs) && fs != []
    ensures fs[0].opcode != CLOSE && StaysOpen(fs[1..])
  {
  }

  lemma ReassembledFirst(f: Frame, data: seq<Frame>, message: seq<Byte>)
    ensures Reassembled([f] + data, message) ==
      if f.fin then [message + f.payload] + Reassembled(data, []) else Reassembled(data, message + f.payload)
  {
    assert ([f] + data)[1..] == data;
  }

  lemma ProcessStep(fs: seq<Frame>, message: seq<Byte>, out: seq<Byte>, sent: seq<Byte>)
    requires fs != [] && fs[0].opcode != CLOSE
    ensures var f, m := fs[0], message + fs[0].payload;
      Process(fs, message, out, sent) ==
        if !IsData(f) then Process(fs[1..], message, out, sent + Pong(f))
        else if !f.fin then Process(fs[1..], m, out, sent)
        else if IsResponse(m) then Done(out, sent)
        else Process(fs[1..], [], out + ChunkBytes(m), sent)
  {
    hide IsResponse, ChunkBytes, Pong;
  }

  /** The messages whose last frame is still to come or the first one. */
  function Coming(fs: seq<Frame>, message: seq<Byte>): seq<seq<Byte>> {
    Reassembled(DataOf(fs), message)
  }

  lemma ComingStep(fs: seq<Frame>, message: seq<Byte>)
    requires fs != []
    ensures var f, m := fs[0], message + fs[0].payload;
      Coming(fs, message) ==
        if !IsData(f) then Coming(fs[1..], message)
        else if f.fin then [m] + Coming(fs[1..], []) else Coming(fs[1..], m)
  {
    hide Reassembled;
    var data := DataOf(fs[1..]);
    assert DataOf(fs) == if IsData(fs[0]) then [fs[0]] + data else [] + data;
    assert [] + data == data;
    ReassembledFirst(fs[0], data, message);
  }

  lemma Associates(a: seq<Byte>, b: seq<Byte>, c: seq<Byte>)
    ensures a + b + c == a + (b + c)
  {
  }

  /** What the loop writes depends on the messages only. */
  lemma {:induction false} ProcessWritesChunks(fs: seq<Frame>, message: seq<Byte>, out: seq<Byte>, sent: seq<Byte>)
    requires StaysOpen(fs)
    ensures Process(fs, message, out, sent).out == out + Chunks(Coming(fs, message))
    ensures Process(fs, message, out, sent).Done? <==> Responds(Coming(fs, message))
    decreases |fs|
  {
    if fs == [] {
      assert out + [] == out;
    } else {
      hide *;
      StaysOpenRest(fs);
      ProcessStep(fs, message, out, sent);
      ComingStep(fs, message);
      var f, m := fs[0], message + fs[0].payload;
      if !IsData(f) {
        ProcessWritesChunks(fs[1..], message, out, sent + Pong(f));
      } else if !f.fin {
        ProcessWritesChunks(fs[1..], m, out, sent);
      } else {
        var rest := Coming(fs[1..], []);
        ChunksFirst(m, rest);
        if IsResponse(m) {
          assert out + [] == out;
        } else {
          ProcessWritesChunks(fs[1..], [], out + ChunkBytes(m), sent);
          Associates(out, ChunkBytes(m), Chunks(rest));
        }
      }
    }
  }

  /**
   * However the messages are cut into frames, and whatever control frames short of a close stand between them, the
   * file gets the chunks of the messages in order, up to the response.
   */
  lemma FragmentationIsIrrelevant(split: seq<seq<seq<Byte>>>, fs: seq<Frame>)
    requires (forall i :: 0 <= i < |split| ==> split[i] != []) && StaysOpen(fs) && DataOf(fs) == AllFragments(split)
    ensures Process(fs, [], [], []).out == Chunks(MessagesOf(split))
    ensures Process(fs, [], [], []).Done? <==> Responds(MessagesOf(split))
  {
    hide Process, Chunks, Responds;
    SplitReassembles(split);
    ProcessWritesChunks(fs, [], [], []);
    assert [] + Chunks(MessagesOf(split)) == Chunks(MessagesOf(split));
  }

  /** The pongs for the pings among some frames. */
  function Pongs(fs: seq<Frame>): seq<Byte> {
    if fs == [] then [] else Pong(fs[0]) + Pongs(fs[1..])
  }

  lemma PongsFirst(fs: seq<Frame>, n: nat)
    requires n < |fs|
    ensures Pongs(fs[..n + 1]) == Pong(fs[0]) + Pongs(fs[1..][..n])
  {
    hide Pong;
    assert fs[..n + 1][1..] == fs[1..][..n];
  }

  /** How many frames the loop takes before it ends. */
  function Taken(fs: seq<Frame>, message: seq<Byte>): (n: nat)
    ensures n <= |fs|
  {
    if fs == [] then 0
    else
      var f := fs[0];
      var m := message + f.payload;
      if (IsData(f) && f.fin && IsResponse(m)) || f.opcode == CLOSE then 1
      else 1 + Taken(fs[1..], if !IsData(f) then message else if f.fin then [] else m)
  }

  lemma TakenStep(fs: seq<Frame>, message: seq<Byte>)
    requires fs != []
    ensures var f, m := fs[0], message + fs[0].payload;
      Taken(fs, message) ==
        if f.opcode == CLOSE || (IsData(f) && f.fin && IsResponse(m)) then 1
        else 1 + Taken(fs[1..], if !IsData(f) then message else if f.fin then [] else m)
  {
    hide IsResponse;
  }

  lemma ProcessEnds(fs: seq<Frame>, message: seq<Byte>, out: seq<Byte>, sent: seq<Byte>)
    requires fs == [] || fs[0].opcode == CLOSE
    ensures Process(fs, message, out, sent).sent == sent
  {
    hide IsResponse, ChunkBytes, Pong;
  }

  lemma OnlyPingsArePonged(f: Frame)
    ensures f.opcode != PING ==> Pong(f) == []
    ensures IsData(f) || f.opcode == CLOSE ==> f.opcode != PING
  {
  }

  /** The pongs still to come, after one more frame. */
  function StillOwed(fs: seq<Frame>, message: seq<Byte>): seq<Byte> {
    Pongs(fs[..Taken(fs, message)])
  }

  lemma OwedStep(fs: seq<Frame>, message: seq<Byte>)
    requires fs != []
    ensures var f, m := fs[0], message + fs[0].payload;
      StillOwed(fs, message) ==
        Pong(f) + if f.opcode == CLOSE || (IsData(f) && f.fin && IsResponse(m)) then []
                  else StillOwed(fs[1..], if !IsData(f) then message else if f.fin then [] else m)
  {
    hide IsResponse, Pong, Pongs, Taken, IsData;
    TakenStep(fs, message);
    PongsFirst(fs, Taken(fs, message) - 1);
    NoPongs();
    assert fs[1..][..0] == [];
  }

  lemma NothingOwed(message: seq<Byte>)
    ensures StillOwed([], message) == []
  {
  }

  /** Every ping among the frames the loop takes, and no other frame, is answered with its payload, in order. */
  lemma {:induction false} PingsAreAnswered(fs: seq<Frame>, message: seq<Byte>, out: seq<Byte>, sent: seq<Byte>)
    ensures Process(fs, message, out, sent).sent == sent + Pongs(fs[..Taken(fs, message)])
    decreases |fs|
  {
    hide *;
    OwedIs(fs, message);
    if fs == [] {
      NothingOwed(message);
      ProcessEnds(fs, message, out, sent);
    } else {
      var f, m := fs[0], message + fs[0].payload;
      OwedStep(fs, message);
      OnlyPingsArePonged(f);
      if f.opcode == CLOSE {
        ProcessEnds(fs, message, out, sent);
      } else {
        ProcessStep(fs, message, out, sent);
        if !IsData(f) {
          PingsAreAnswered(fs[1..], message, out, sent + Pong(f));
          OwedIs(fs[1..], message);
          Associates(sent, Pong(f), StillOwed(fs[1..], message));
        } else if !f.fin {
          PingsAreAnswered(fs[1..], m, out, sent);
          OwedIs(fs[1..], m);
        } else if !IsResponse(m) {
          PingsAreAnswered(fs[1..], [], out + ChunkBytes(m), sent);
          OwedIs(fs[1..], []);
        }
      }
    }
  }

  lemma OwedIs(fs: seq<Frame>, message: seq<Byte>)
    ensures StillOwed(fs, message) == Pongs(fs[..Taken(fs, message)])
  {
  }

  lemma NoPongs()
    ensures Pongs([]) == []
  {
  }

  // ---- From frames to bytes ----

  function EncodeAll(es: seq<Encoding>): seq<Byte>
    requires forall i :: 0 <= i < |es| ==> Encodable(es[i])
  {
    if es == [] then [] else Encode(es[0]) + EncodeAll(es[1..])
  }

  function FramesOf(es: seq<Encoding>): (fs: seq<Frame>)
    ensures |fs| == |es|
  {
    seq(|es|, i requires 0 <= i < |es| => es[i].frame)
  }

  /** The loop does on the bytes what it does on the frames, in whichever form their lengths are written. */
  lemma {:induction false} StreamIsFrames(es: seq<Encoding>, rest: seq<Byte>, message: seq<Byte>, out: seq<Byte>,
                                          sent: seq<Byte>)
    requires forall i :: 0 <= i < |es| ==> Encodable(es[i])
    requires Process(FramesOf(es), message, out, sent).Done?
    ensures ProcessStream(EncodeAll(es) + rest, message, out, sent) == Process(FramesOf(es), message, out, sent)
    decreases |es|
  {
    hide IsResponse, ChunkBytes, Pong, ReadFrame, Encode;
    var tail := EncodeAll(es[1..]) + rest;
    var s := EncodeAll(es) + rest;
    assert s == Encode(es[0]) + tail;
    FrameReads(es[0], tail);
    assert s[|Encode(es[0])|..] == tail;
    var f := es[0].frame;
    assert FramesOf(es)[0] == f && FramesOf(es)[1..] == FramesOf(es[1..]);
    var m := message + f.payload;
    if !IsData(f) {
      StreamIsFrames(es[1..], rest, message, out, sent + Pong(f));
    } else if !f.fin {
      StreamIsFrames(es[1..], rest, m, out, sent);
    } else if !IsResponse(m) {
      StreamIsFrames(es[1..], rest, [], out + ChunkBytes(m), sent);
    }
  }

  /** The whole way: bytes on the wire to bytes in the file. */
  lemma SnapshotIsChunks(split: seq<seq<seq<Byte>>>, es: seq<Encoding>, rest: seq<Byte>)
    requires forall i :: 0 <= i < |es| ==> Encodable(es[i])
    requires forall i :: 0 <= i < |split| ==> split[i] != []
    requires StaysOpen(FramesOf(es)) && DataOf(FramesOf(es)) == AllFragments(split) && Responds(MessagesOf(split))
    ensures ProcessStream(EncodeAll(es) + rest, [], [], []).Done?
    ensures ProcessStream(EncodeAll(es) + rest, [], [], []).out == Chunks(MessagesOf(split))
  {
    hide *;
    FragmentationIsIrrelevant(split, FramesOf(es));
    StreamIsFrames(es, rest, [], [], []);
  }

  // ---- The messages of the inspector ----

  const OPEN_METHOD: seq<Byte> := [123, 34, 109, 101, 116, 104, 111, 100, 34, 58, 34] // {"method":"
  const DOMAIN: seq<Byte> := [72, 101, 97, 112, 80, 114, 111, 102, 105, 108, 101, 114, 46] // HeapProfiler.
  const EVENT: seq<Byte> := [ // addHeapSnapshotChunk
    97, 100, 100, 72, 101, 97, 112, 83, 110, 97, 112, 115, 104, 111, 116, 67, 104, 117, 110, 107
  ]
  const OPEN_PARAMS: seq<Byte> := [34, 44, 34, 112, 97, 114, 97, 109, 115, 34, 58, 123] // ","params":{

  /** What stands before the key of a chunk. */
  const CHUNK_FRONT: seq<Byte> := OPEN_METHOD + DOMAIN + EVENT + OPEN_PARAMS

  const RESPONSE: seq<Byte> := [
    123, 34, 105, 100, 34, 58, 49, 44, 34, 114, 101, 115, 117, 108, 116, 34, 58, 123, 125, 125
  ] // {"id":1,"result":{}}

  /** The key is found where it stands if and only if nothing before it, with its first quote, reads like it. */
  lemma KeyIsFoundIff(front: seq<Byte>, rest: seq<Byte>)
    ensures Json.Find(front + (KEY_CHUNK + rest), KEY_CHUNK) == Some(|front|) <==>
            forall j :: 0 <= j < |front| ==> !Json.At(front + [Json.QUOTE], KEY_CHUNK, j)
  {
    var s, t := front + (KEY_CHUNK + rest), front + [Json.QUOTE];
    assert s[|front|..|front| + 7] == KEY_CHUNK;
    assert Json.At(s, KEY_CHUNK, |front|);
    forall j | 0 <= j < |front|
      ensures Json.At(s, KEY_CHUNK, j) <==> Json.At(t, KEY_CHUNK, j)
    {
      if j + 7 <= |t| {
        assert s[j..j + 7] == t[j..j + 7];
      } else {
        assert s[j..j + 7][|front| - j] == Json.QUOTE;
        assert KEY_CHUNK[|front| - j] != Json.QUOTE;
      }
    }
  }

  lemma KeyHasC(s: seq<Byte>, j: nat)
    requires Json.At(s, KEY_CHUNK, j)
    ensures s[j] == Json.QUOTE && s[j + 1] == 99
  {
    assert s[j] == s[j..j + 7][0] && s[j + 1] == s[j..j + 7][1];
  }

  /** A front without the letter `c` holds no key. */
  lemma NoKeyWithoutC(front: seq<Byte>)
    requires 99 !in front
    ensures forall j :: 0 <= j < |front| ==> !Json.At(front + [Json.QUOTE], KEY_CHUNK, j)
  {
    var t := front + [Json.QUOTE];
    forall j | 0 <= j < |front|
      ensures !Json.At(t, KEY_CHUNK, j)
    {
      if Json.At(t, KEY_CHUNK, j) {
        KeyHasC(t, j);
      }
    }
  }

  lemma FrontHasNoC()
    ensures 99 !in CHUNK_FRONT
  {
    assert 99 !in OPEN_METHOD && 99 !in DOMAIN && 99 !in EVENT && 99 !in OPEN_PARAMS;
  }

  /** A message with a chunk, behind a front and before whatever follows it. */
  function ChunkMessage(front: seq<Byte>, ps: seq<Json.Piece>, tail: seq<Byte>): seq<Byte> {
    front + (KEY_CHUNK + ([58, Json.QUOTE] + (Json.WrittenAll(ps) + ([Json.QUOTE] + tail))))
  }

  /** A chunk message gives the string that its chunk was, however that was escaped, if the key is not found earlier. */
  lemma ChunkMessageReads(front: seq<Byte>, ps: seq<Json.Piece>, tail: seq<Byte>)
    requires Json.GoodPieces(ps)
    requires forall j :: 0 <= j < |front| ==> !Json.At(front + [Json.QUOTE], KEY_CHUNK, j)
    ensures ChunkOf(ChunkMessage(front, ps, tail)) == Some(Json.MeaningAll(ps))
  {
    hide Json.At, Json.Find, Json.Unescape, Json.WrittenAll, Json.MeaningAll, Json.GoodPieces;
    var value := Json.WrittenAll(ps) + ([Json.QUOTE] + tail);
    var rest := [58, Json.QUOTE] + value;
    var m := front + (KEY_CHUNK + rest);
    KeyIsFoundIff(front, rest);
    assert m[|front| + |KEY_CHUNK|..] == rest;
    Json.ColonQuote(value);
    assert rest[2..] == value;
    Json.StringReads(ps, tail);
  }

  /** What an inspector sends before its response: chunks, and notices that hold neither key. */
  datatype Sent = Chunk(ps: seq<Json.Piece>, tail: seq<Byte>) | Notice(message: seq<Byte>)

  predicate GoodSent(m: Sent) {
    match m
    case Chunk(ps, _) => Json.GoodPieces(ps)
    case Notice(message) => Json.Find(message, KEY_CHUNK).None? && Json.Find(message, KEY_ID).None?
  }

  function MessageOf(m: Sent): seq<Byte> {
    match m
    case Chunk(ps, tail) => ChunkMessage(CHUNK_FRONT, ps, tail)
    case Notice(message) => message
  }

  function MessagesSent(ms: seq<Sent>): seq<seq<Byte>> {
    if ms == [] then [RESPONSE] else [MessageOf(ms[0])] + MessagesSent(ms[1..])
  }

  /** The text of the snapshot: what the chunk strings mean, one after the other. */
  function TextOf(ms: seq<Sent>): seq<Byte>
    requires forall i :: 0 <= i < |ms| ==> GoodSent(ms[i])
  {
    if ms == [] then []
    else
      assert GoodSent(ms[0]);
      (if ms[0].Chunk? then Json.MeaningAll(ms[0].ps) else []) + TextOf(ms[1..])
  }

  lemma ResponseEnds()
    ensures IsResponse(RESPONSE)
  {
    forall j | 0 <= j
      ensures !Json.At(RESPONSE, KEY_CHUNK, j)
    {
      if Json.At(RESPONSE, KEY_CHUNK, j) {
        KeyHasC(RESPONSE, j);
      }
    }
    assert RESPONSE[1..7] == KEY_ID;
    assert Json.At(RESPONSE, KEY_ID, 1);
  }

  lemma SentReads(m: Sent)
    requires GoodSent(m)
    ensures !IsResponse(MessageOf(m))
    ensures ChunkBytes(MessageOf(m)) == if m.Chunk? then Json.MeaningAll(m.ps) else []
  {
    hide Json.Find, Json.At, Json.WrittenAll, Json.MeaningAll, Json.GoodPieces, ChunkMessage, Json.Unescape;
    if m.Chunk? {
      FrontHasNoC();
      NoKeyWithoutC(CHUNK_FRONT);
      ChunkMessageReads(CHUNK_FRONT, m.ps, m.tail);
    }
  }

  lemma {:induction false} SentIsText(ms: seq<Sent>)
    requires forall i :: 0 <= i < |ms| ==> GoodSent(ms[i])
    ensures Chunks(MessagesSent(ms)) == TextOf(ms) && Responds(MessagesSent(ms))
  {
    hide IsResponse, ChunkBytes, MessageOf, GoodSent, Json.MeaningAll, Chunks, Responds;
    if ms == [] {
      ResponseEnds();
      ChunksFirst(RESPONSE, []);
      assert [RESPONSE] + [] == [RESPONSE];
    } else {
      SentReads(ms[0]);
      SentIsText(ms[1..]);
      ChunksFirst(MessageOf(ms[0]), MessagesSent(ms[1..]));
    }
  }

  /**
   * The file is the snapshot: however the inspector escapes the chunks, cuts its messages into frames, writes their
   * lengths and puts control frames between them, what is written is the text of the chunks in order.
   */
  lemma SnapshotIsText(ms: seq<Sent>, split: seq<seq<seq<Byte>>>, es: seq<Encoding>, rest: seq<Byte>)
    requires forall i :: 0 <= i < |ms| ==> GoodSent(ms[i])
    requires forall i :: 0 <= i < |es| ==> Encodable(es[i])
    requires forall i :: 0 <= i < |split| ==> split[i] != []
    requires StaysOpen(FramesOf(es)) && DataOf(FramesOf(es)) == AllFragments(split)
    requires MessagesOf(split) == MessagesSent(ms)
    ensures ProcessStream(EncodeAll(es) + rest, [], [], []).Done?
    ensures ProcessStream(EncodeAll(es) + rest, [], [], []).out == TextOf(ms)
  {
    hide *;
    SentIsText(ms);
    SnapshotIsChunks(split, es, rest);
  }

  // ---- The snapshot as Unicode text ----

  /** A chunk as text, written in any mixture of escapes, or a notice. */
  datatype Said = Words(cs: seq<JsonText.Char>, tail: seq<Byte>) | Aside(message: seq<Byte>)

  predicate GoodSaid(m: Said) {
    match m
    case Words(cs, _) => JsonText.GoodText(cs)
    case Aside(message) => GoodSent(Notice(message))
  }

  predicate AllGood(ms: seq<Said>) {
    forall i :: 0 <= i < |ms| ==> GoodSaid(ms[i])
  }

  function SentAs(m: Said): Sent
    requires GoodSaid(m)
  {
    match m
    case Words(cs, tail) => Chunk(JsonText.PiecesOfText(cs), tail)
    case Aside(message) => Notice(message)
  }

  function AllSentAs(ms: seq<Said>): (r: seq<Sent>)
    requires AllGood(ms)
    ensures |r| == |ms| && forall i :: 0 <= i < |ms| ==> r[i] == SentAs(ms[i])
  {
    seq(|ms|, i requires 0 <= i < |ms| => SentAs(ms[i]))
  }

  function CharactersOf(ms: seq<Said>): seq<nat> {
    if ms == [] then []
    else (if ms[0].Words? then JsonText.CodePoints(ms[0].cs) else []) + CharactersOf(ms[1..])
  }

  lemma SaidIsGood(ms: seq<Said>)
    requires AllGood(ms)
    ensures forall i :: 0 <= i < |ms| ==> GoodSent(AllSentAs(ms)[i])
  {
    hide JsonText.PiecesOfText, JsonText.WriteText, JsonText.GoodText, Json.GoodPieces;
    forall i | 0 <= i < |ms|
      ensures GoodSent(AllSentAs(ms)[i])
    {
      assert GoodSaid(ms[i]);
      if ms[i].Words? {
        JsonText.TextIsPieces(ms[i].cs);
      }
    }
  }

  lemma {:induction false} TextIsCharacters(ms: seq<Said>)
    requires AllGood(ms) && forall i :: 0 <= i < |ms| ==> GoodSent(AllSentAs(ms)[i])
    ensures forall i :: 0 <= i < |CharactersOf(ms)| ==> Json.Scalar(CharactersOf(ms)[i])
    ensures TextOf(AllSentAs(ms)) == JsonText.Encoded(CharactersOf(ms))
  {
    hide JsonText.PiecesOfText, JsonText.WriteText, JsonText.GoodText, JsonText.Encoded, JsonText.CodePoints,
      Json.MeaningAll, Json.GoodPieces, Json.Scalar, GoodSent;
    var front := if ms != [] && ms[0].Words? then JsonText.CodePoints(ms[0].cs) else [];
    NothingEncoded();
    if ms == [] {
    } else {
      assert GoodSaid(ms[0]) && AllGood(ms[1..]);
      assert AllSentAs(ms)[1..] == AllSentAs(ms[1..]);
      TextIsCharacters(ms[1..]);
      if ms[0].Words? {
        JsonText.TextIsPieces(ms[0].cs);
      }
      JsonText.EncodedAppend(front, CharactersOf(ms[1..]));
    }
  }

  lemma NothingEncoded()
    ensures JsonText.Encoded([]) == []
  {
  }

  /**
   * The file is the snapshot as text: whatever mixture of plain characters and escapes the chunks were written in, and
   * however they came over the wire, a strict UTF-8 decoder reads the file as the characters of the chunks, in order.
   */
  lemma SnapshotDecodes(ms: seq<Said>, split: seq<seq<seq<Byte>>>, es: seq<Encoding>, rest: seq<Byte>)
    requires AllGood(ms)
    requires forall i :: 0 <= i < |es| ==> Encodable(es[i])
    requires forall i :: 0 <= i < |split| ==> split[i] != []
    requires StaysOpen(FramesOf(es)) && DataOf(FramesOf(es)) == AllFragments(split)
    requires MessagesOf(split) == MessagesSent(AllSentAs(ms))
    ensures var end := ProcessStream(EncodeAll(es) + rest, [], [], []);
      end.Done? && JsonText.DecodeAll(end.out) == Some(CharactersOf(ms))
  {
    hide *;
    SaidIsGood(ms);
    TextIsCharacters(ms);
    JsonText.EncodedDecodes(CharactersOf(ms));
    SnapshotIsText(AllSentAs(ms), split, es, rest);
  }

  // ---- The bytes on the wire ----

  lemma NamesOnTheWire()
    ensures KEY_CHUNK == Ascii("\"chunk\"") && KEY_ID == Ascii("\"id\":1")
    ensures OPEN_METHOD == Ascii("{\"method\":\"") && DOMAIN == Ascii("HeapProfiler.")
    ensures EVENT == Ascii("addHeapSnapshotChunk") && OPEN_PARAMS == Ascii("\",\"params\":{")
  {
  }

  lemma TwoBytes(v: nat)
    requires v < 65536
    ensures Be(v, 2) == [v / 256, v % 256]
  {
    assert Be(v / 256, 1) == Be(0, 0) + [v / 256];
    assert Be(0, 0) == [] && [] + [v / 256] == [v / 256];
  }

  /** A length below 2^32 in eight bytes, the most significant first. */
  lemma {:induction false} EightBytes(v: nat)
    requires v < TWO_32
    ensures Be(v, 8) == [0, 0, 0, 0, v / 0x100_0000, v / 0x1_0000 % 256, v / 256 % 256, v % 256]
  {
    var a, b, c := v / 256, v / 256 / 256, v / 256 / 256 / 256;
    assert b == v / 0x1_0000 && c == v / 0x100_0000 && c < 256;
    assert Be(v, 8) == Be(a, 7) + [v % 256] && Be(a, 7) == Be(b, 6) + [a % 256];
    assert Be(b, 6) == Be(c, 5) + [b % 256] && Be(c, 5) == Be(0, 4) + [c];
    assert Be(0, 4) == Be(0, 3) + [0] && Be(0, 3) == Be(0, 2) + [0];
    TwoBytes(0);
  }

  /** The first bytes of a frame, in each form of the length (section 5.2 of RFC 6455). */
  function Short(b: Byte, n: nat): seq<Byte>
    requires n < 128
  {
    [b, n]
  }

  function Medium(b: Byte, mask: nat, n: nat): seq<Byte>
    requires n < 65536 && mask <= 128
  {
    [b, mask + 126, n / 256, n % 256]
  }

  function Long(b: Byte, mask: nat, n: nat): seq<Byte>
    requires n < TWO_32 && mask <= 128
  {
    [b, mask + 127, 0, 0, 0, 0, n / 0x100_0000, n / 0x1_0000 % 256, n / 256 % 256, n % 256]
  }

  function FirstByte(fin: bool, opcode: nat): Byte
    requires opcode < 16
  {
    (if fin then 0x80 else 0) + opcode
  }

  lemma HeadersAre(b: Byte, n: nat, mask: nat)
    requires n < TWO_32 && mask <= 128
    ensures n < 65536 ==> Medium(b, mask, n) == [b] + ([mask + 126] + Be(n, 2))
    ensures Long(b, mask, n) == [b] + ([mask + 127] + Be(n, 8))
  {
    EightBytes(n);
    if n < 65536 {
      TwoBytes(n);
    }
    hide Be;
  }

  lemma EncodingIs(fin: bool, opcode: nat, payload: seq<Byte>, form: LengthForm)
    requires Encodable(Encoding(Frame(fin, opcode, payload), 0, form))
    ensures Encode(Encoding(Frame(fin, opcode, payload), 0, form)) ==
      [FirstByte(fin, opcode)] + LengthBytes(form, |payload|) + payload
  {
    hide LengthBytes;
  }

  /** A frame byte by byte: the first byte, the length in each of three forms, and the payload. */
  lemma WireFrames(fin: bool, opcode: nat, payload: seq<Byte>, rest: seq<Byte>)
    requires opcode < 16 && |payload| <= 0x2000_0000
    ensures var b, n := FirstByte(fin, opcode), |payload|;
      && (n < 126 ==> ReadFrame(Short(b, n) + payload + rest) == Got(Frame(fin, opcode, payload), 2 + n))
      && (n < 65536 ==> ReadFrame(Medium(b, 0, n) + payload + rest) == Got(Frame(fin, opcode, payload), 4 + n))
      && ReadFrame(Long(b, 0, n) + payload + rest) == Got(Frame(fin, opcode, payload), 10 + n)
  {
    var n := |payload|;
    var f := Frame(fin, opcode, payload);
    HeadersAre(FirstByte(fin, opcode), n, 0);
    hide ReadFrame, Be, Medium, Long, Encode, FirstByte;
    if n < 126 {
      FrameReads(Encoding(f, 0, Seven), rest);
      EncodingIs(fin, opcode, payload, Seven);
      assert Short(FirstByte(fin, opcode), n) == [FirstByte(fin, opcode)] + LengthBytes(Seven, n);
    }
    if n < 65536 {
      FrameReads(Encoding(f, 0, Sixteen), rest);
      EncodingIs(fin, opcode, payload, Sixteen);
    }
    FrameReads(Encoding(f, 0, SixtyFour), rest);
    EncodingIs(fin, opcode, payload, SixtyFour);
  }

  /** A frame of more than 512 MiB is refused before its payload is looked at. */
  lemma WireOversized(b: Byte, n: nat, rest: seq<Byte>)
    requires 0x2000_0000 < n < TWO_32
    ensures ReadFrame(Long(b, 0, n) + rest) == Oversized
  {
    HeadersAre(b, n, 0);
    BeFits(n);
    hide Be, FromBe, Long;
    LengthFieldReads(b, 127, Be(n, 8), rest);
    hide ReadLength;
  }

  const NO_MASK: seq<Byte> := [0, 0, 0, 0]

  /** A client's frame byte by byte: final, masked with a key of zeros, its length in three forms. */
  lemma WireClientFrames(opcode: nat, payload: seq<Byte>)
    requires opcode < 16 && |payload| < TWO_32
    ensures var b, n := 0x80 + opcode, |payload|;
      ClientFrame(opcode, payload) ==
        (if n < 126 then [b, 0x80 + n] else if n < 65536 then Medium(b, 0x80, n) else Long(b, 0x80, n))
        + NO_MASK + payload
  {
    hide Be, Medium, Long, ClientFrame, ClientLength;
    HeadersAre(0x80 + opcode, |payload|, 0x80);
    ClientLengthIs(|payload|);
    ClientFrameIs(opcode, payload);
  }

  lemma ClientLengthIs(n: nat)
    requires n < TWO_32
    ensures ClientLength(n) == if n < 126 then [128 + n] else if n < 65536 then [254] + Be(n, 2) else [255] + Be(n, 8)
  {
    hide Be;
  }

  lemma ClientFrameIs(opcode: nat, payload: seq<Byte>)
    requires opcode < 16
    ensures ClientFrame(opcode, payload) == [128 + opcode] + ClientLength(|payload|) + NO_MASK + payload
  {
    hide ClientLength;
  }

  lemma StreamStep(s: seq<Byte>, n: nat, f: Frame, message: seq<Byte>, out: seq<Byte>, sent: seq<Byte>)
    requires ReadFrame(s) == Got(f, n)
    ensures n <= |s|
    ensures ProcessStream(s, message, out, sent) ==
      var m := message + f.payload;
      if IsData(f) then
        if !f.fin then ProcessStream(s[n..], m, out, sent)
        else if IsResponse(m) then Done(out, sent)
        else ProcessStream(s[n..], [], out + ChunkBytes(m), sent)
      else if f.opcode == 8 then Failed(ClosedByServer, out, sent)
      else ProcessStream(s[n..], message, out, sent + Pong(f))
  {
    hide ReadFrame, IsResponse, ChunkBytes, Pong;
  }

  /** A ping on the wire is answered on the wire, in the middle of a message too. */
  lemma WirePing(p: seq<Byte>, rest: seq<Byte>, message: seq<Byte>, out: seq<Byte>, sent: seq<Byte>)
    requires |p| < 126
    ensures ProcessStream([0x89, |p|] + p + rest, message, out, sent)
         == ProcessStream(rest, message, out, sent + ([0x8A, 0x80 + |p|] + NO_MASK + p))
  {
    hide ReadFrame, ClientFrame, IsResponse, ChunkBytes, ProcessStream, Medium, Long, NO_MASK;
    WireFrames(true, 9, p, rest);
    WireClientFrames(10, p);
    StreamStep([0x89, |p|] + p + rest, 2 + |p|, Frame(true, 9, p), message, out, sent);
    assert ([0x89, |p|] + p + rest)[2 + |p|..] == rest;
  }

  /** A close ends the snapshot as a failure; the program's own close is six bytes. */
  lemma WireClose(p: seq<Byte>, rest: seq<Byte>, message: seq<Byte>, out: seq<Byte>, sent: seq<Byte>)
    requires |p| < 126
    ensures ProcessStream([0x88, |p|] + p + rest, message, out, sent) == Failed(ClosedByServer, out, sent)
    ensures ClientFrame(CLOSE, []) == [0x88, 0x80, 0, 0, 0, 0]
  {
    hide ReadFrame, ClientFrame, IsResponse, ChunkBytes, ProcessStream, Medium, Long;
    WireFrames(true, 8, p, rest);
    WireClientFrames(8, []);
    StreamStep([0x88, |p|] + p + rest, 2 + |p|, Frame(true, 8, p), message, out, sent);
  }

  /** A final text frame completes the message that the frames before it have begun. */
  lemma WireText(p: seq<Byte>, rest: seq<Byte>, message: seq<Byte>, out: seq<Byte>, sent: seq<Byte>)
    requires |p| < 126
    ensures ProcessStream([0x81, |p|] + p + rest, message, out, sent) ==
      if IsResponse(message + p) then Done(out, sent)
      else ProcessStream(rest, [], out + ChunkBytes(message + p), sent)
  {
    hide ReadFrame, IsResponse, ChunkBytes, ProcessStream, Medium, Long;
    WireFrames(true, 1, p, rest);
    StreamStep([0x81, |p|] + p + rest, 2 + |p|, Frame(true, 1, p), message, out, sent);
    assert ([0x81, |p|] + p + rest)[2 + |p|..] == rest;
  }

  /** A final continuation frame completes it just so. */
  lemma WireContinuation(p: seq<Byte>, rest: seq<Byte>, message: seq<Byte>, out: seq<Byte>, sent: seq<Byte>)
    requires |p| < 126
    ensures ProcessStream([0x80, |p|] + p + rest, message, out, sent) ==
      if IsResponse(message + p) then Done(out, sent)
      else ProcessStream(rest, [], out + ChunkBytes(message + p), sent)
  {
    hide ReadFrame, IsResponse, ChunkBytes, ProcessStream, Medium, Long;
    WireFrames(true, 0, p, rest);
    StreamStep([0x80, |p|] + p + rest, 2 + |p|, Frame(true, 0, p), message, out, sent);
    assert ([0x80, |p|] + p + rest)[2 + |p|..] == rest;
  }

  /** A frame that is not final, text or continuation, adds its bytes to the message. */
  lemma WireFragment(opcode: nat, p: seq<Byte>, rest: seq<Byte>, message: seq<Byte>, out: seq<Byte>, sent: seq<Byte>)
    requires |p| < 126 && opcode <= 1
    ensures ProcessStream([opcode, |p|] + p + rest, message, out, sent)
         == ProcessStream(rest, message + p, out, sent)
  {
    hide ReadFrame, IsResponse, ChunkBytes, ProcessStream, Medium, Long;
    WireFrames(false, opcode, p, rest);
    StreamStep([opcode, |p|] + p + rest, 2 + |p|, Frame(false, opcode, p), message, out, sent);
    assert ([opcode, |p|] + p + rest)[2 + |p|..] == rest;
  }

  /** Frames of any other kind change nothing. */
  lemma WireOther(opcode: nat, p: seq<Byte>, rest: seq<Byte>, message: seq<Byte>, out: seq<Byte>, sent: seq<Byte>)
    requires |p| < 126 && (2 <= opcode <= 7 || 10 <= opcode <= 15)
    ensures ProcessStream([0x80 + opcode, |p|] + p + rest, message, out, sent)
         == ProcessStream(rest, message, out, sent)
  {
    hide ReadFrame, IsResponse, ChunkBytes, ProcessStream, Medium, Long, ClientFrame;
    WireFrames(true, opcode, p, rest);
    StreamStep([0x80 + opcode, |p|] + p + rest, 2 + |p|, Frame(true, opcode, p), message, out, sent);
    assert ([0x80 + opcode, |p|] + p + rest)[2 + |p|..] == rest;
    assert sent + [] == sent;
  }
}
