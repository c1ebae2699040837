/**
  Client-to-server messages: how the client prints them (`RFBClient` writers, vncdotool/rfb.py)
  and how the replay server frames them (`client_message_length` and `saw_update_request`,
  vncdotool/replay.py).
 */
module ClientMessages {
  import opened Bytes

  const SET_PIXEL_FORMAT := 0
  const SET_ENCODING := 2
  const FRAMEBUFFER_UPDATE_REQUEST := 3
  const KEY_EVENT := 4
  const POINTER_EVENT := 5
  const CLIENT_CUT_TEXT := 6
  const QEMU_CLIENT_MESSAGE := 255
  const EXTENDED_KEY_EVENT := 0

  // ----- framing -----

  datatype Length = Measured(nbytes: nat) | NeedMore | UnknownMessage

  /** `client_message_length`. */
  function MessageLength(buffer: Data): (r: Length)
    requires buffer != []
    ensures r.Measured? ==> 0 < r.nbytes
  {
    var kind := buffer[0];
    if kind == SET_PIXEL_FORMAT then Measured(20)
    else if kind == SET_ENCODING then
      if |buffer| < 4 then NeedMore else Measured(4 + 4 * U16(buffer[2..4]))
    else if kind == FRAMEBUFFER_UPDATE_REQUEST then Measured(10)
    else if kind == KEY_EVENT then Measured(8)
    else if kind == POINTER_EVENT then Measured(6)
    else if kind == CLIENT_CUT_TEXT then
      if |buffer| < 8 then NeedMore else Measured(8 + U32(buffer[4..8]))
    else if kind == QEMU_CLIENT_MESSAGE then
      if |buffer| < 2 then NeedMore
      else if buffer[1] == EXTENDED_KEY_EVENT then Measured(12)
      else UnknownMessage
    else UnknownMessage
  }

  /** The head of `buffer` cannot be taken off yet. */
  predicate Incomplete(buffer: Data) {
    buffer == [] || MessageLength(buffer).NeedMore?
    || (MessageLength(buffer).Measured? && |buffer| < MessageLength(buffer).nbytes)
  }

  datatype Scanned = Scanned(found: bool, rest: Data)

  /** What `saw_update_request` answers and what it leaves in the buffer. */
  function Scan(buffer: Data): Scanned {
    if Incomplete(buffer) then Scanned(false, buffer)
    else if MessageLength(buffer).UnknownMessage? then Scanned(true, [])
    else
      var rest := buffer[MessageLength(buffer).nbytes..];
      if buffer[0] == FRAMEBUFFER_UPDATE_REQUEST then Scanned(true, rest) else Scan(rest)
  }

  /** `saw_update_request`: the buffer comes back without the messages taken off it. */
  method SawUpdateRequest(buffer: Data) returns (found: bool, rest: Data)
    ensures Scanned(found, rest) == Scan(buffer)
  {
    hide MessageLength;
    rest := buffer;
    while rest != []
      invariant Scan(rest) == Scan(buffer)
      decreases |rest|
    {
      var length := MessageLength(rest);
      if length.UnknownMessage? {
        return true, [];
      }
      if length.NeedMore? || |rest| < length.nbytes {
        return false, rest;
      }
      var kind := rest[0];
      rest := rest[length.nbytes..];
      if kind == FRAMEBUFFER_UPDATE_REQUEST {
        return true, rest;
      }
    }
    return false, rest;
  }

  /** A length once measured, and a refusal once given, never changes as more bytes arrive. */
  lemma {:induction false} LengthIsStable(buffer: Data, more: Data)
    requires buffer != [] && !MessageLength(buffer).NeedMore?
    ensures MessageLength(buffer + more) == MessageLength(buffer)
  {
    if |buffer| >= 4 {
      assert (buffer + more)[2..4] == buffer[2..4];
    }
    if |buffer| >= 8 {
      assert (buffer + more)[4..8] == buffer[4..8];
    }
  }

  /** Scanning may stop and resume anywhere. */
  lemma {:induction false} ScanResumes(a: Data, b: Data)
    ensures Scan(a).found ==> Scan(a + b).found
    ensures !Scan(a).found ==> Scan(a + b) == Scan(Scan(a).rest + b) && Incomplete(Scan(a).rest)
    decreases |a|
  {
    hide MessageLength;
    if !Incomplete(a) {
      LengthIsStable(a, b);
      if MessageLength(a).Measured? {
        var n := MessageLength(a).nbytes;
        assert (a + b)[n..] == a[n..] + b;
        ScanResumes(a[n..], b);
      }
    }
  }

  // ----- every stream is frames and a tail -----

  /** One whole message that asks for nothing. */
  predicate Plain(frame: Data) {
    frame != [] && MessageLength(frame) == Measured(|frame|) && frame[0] != FRAMEBUFFER_UPDATE_REQUEST
  }

  predicate AllPlain(frames: seq<Data>) {
    forall i :: 0 <= i < |frames| ==> Plain(frames[i])
  }

  /** Headed by a whole update request, or by a message that cannot be measured. */
  predicate Asks(tail: Data) {
    && !Incomplete(tail)
    && (MessageLength(tail).UnknownMessage? || tail[0] == FRAMEBUFFER_UPDATE_REQUEST)
  }

  /** A client's stream: the messages that ask for nothing, and what comes after them. */
  datatype Framing = Framing(frames: seq<Data>, tail: Data) {
    predicate Valid() {
      AllPlain(frames) && (Incomplete(tail) || Asks(tail))
    }
  }

  /** Any bytes at all have a framing. */
  function Frame(buffer: Data): (f: Framing)
    ensures f.Valid() && buffer == Concat(f.frames) + f.tail
  {
    if Incomplete(buffer) || Asks(buffer) then Framing([], buffer)
    else
      var n := MessageLength(buffer).nbytes;
      var f := Frame(buffer[n..]);
      HeadIsPlain(buffer);
      Associative(buffer[..n], Concat(f.frames), f.tail);
      Framing([buffer[..n]] + f.frames, f.tail)
  }

  lemma {:induction false} HeadIsPlain(buffer: Data)
    requires !Incomplete(buffer) && !Asks(buffer)
    ensures MessageLength(buffer).Measured? && Plain(buffer[..MessageLength(buffer).nbytes])
  {
    var n := MessageLength(buffer).nbytes;
    if 4 <= n {
      assert buffer[..n][2..4] == buffer[2..4];
    }
    if 8 <= n {
      assert buffer[..n][4..8] == buffer[4..8];
    }
  }

  /** And only one. */
  lemma {:induction false} FramingIsUnique(f: Framing)
    requires f.Valid()
    ensures Frame(Concat(f.frames) + f.tail) == f
    decreases |f.frames|
  {
    hide MessageLength;
    if f.frames == [] {
      assert Concat(f.frames) + f.tail == f.tail;
    } else {
      var more := Framing(f.frames[1..], f.tail);
      PlainHead(f.frames[0], Concat(more.frames) + f.tail);
      Associative(f.frames[0], Concat(more.frames), f.tail);
      FramingIsUnique(more);
      assert f.frames == [f.frames[0]] + more.frames;
    }
  }

  lemma {:induction false} PlainHead(frame: Data, more: Data)
    requires Plain(frame)
    ensures var buffer := frame + more;
            && MessageLength(buffer) == Measured(|frame|) && !Incomplete(buffer) && !Asks(buffer)
            && buffer[0] == frame[0] && buffer[..|frame|] == frame && buffer[|frame|..] == more
  {
    hide MessageLength;
    LengthIsStable(frame, more);
  }

  /** `saw_update_request` on any stream: it takes the plain messages off, and answers what the
      tail says. An unmeasurable message drops everything behind it. */
  lemma {:induction false} ScanTellsTail(f: Framing)
    requires f.Valid()
    ensures Scan(Concat(f.frames) + f.tail) ==
            if !Asks(f.tail) then Scanned(false, f.tail)
            else if MessageLength(f.tail).UnknownMessage? then Scanned(true, [])
            else Scanned(true, f.tail[10..])
    decreases |f.frames|
  {
    if f.frames == [] {
      assert Concat(f.frames) + f.tail == f.tail;
    } else {
      hide MessageLength;
      var more := Framing(f.frames[1..], f.tail);
      PlainHead(f.frames[0], Concat(more.frames) + f.tail);
      Associative(f.frames[0], Concat(more.frames), f.tail);
      ScanTellsTail(more);
    }
  }

  // ----- printing -----

  datatype ClientMessage =
    | SetPixelFormat(format: Data)
    | SetEncodings(encodings: seq<int>)
    | UpdateRequest(incremental: bool, x: nat, y: nat, width: nat, height: nat)
    | KeyEvent(down: bool, key: nat)
    | PointerEvent(mask: Byte, px: nat, py: nat)
    | CutText(text: Data)
    /** Not written by this library, but by other clients that replay may serve. */
    | QemuKeyEvent(press: nat, keysym: nat, keycode: nat)
  {
    /** What `struct.pack` accepts. */
    predicate Fits() {
      match this
      case SetPixelFormat(format) => |format| == 16
      case SetEncodings(encodings) =>
        |encodings| < 0x1_0000 && forall i :: 0 <= i < |encodings| ==> -0x8000_0000 <= encodings[i] < 0x8000_0000
      case UpdateRequest(_, x, y, w, h) => x < 0x1_0000 && y < 0x1_0000 && w < 0x1_0000 && h < 0x1_0000
      case KeyEvent(_, key) => key < 0x1_0000_0000
      case PointerEvent(_, x, y) => x < 0x1_0000 && y < 0x1_0000
      case CutText(text) => |text| < 0x1_0000_0000
      case QemuKeyEvent(press, keysym, keycode) =>
        press < 0x1_0000 && keysym < 0x1_0000_0000 && keycode < 0x1_0000_0000
    }

    /** The bytes the writer puts on the wire. */
    function Print(): (r: Data)
      requires Fits()
      ensures r != []
    {
      match this
      case SetPixelFormat(format) => [SET_PIXEL_FORMAT, 0, 0, 0] + format
      case SetEncodings(encodings) => [SET_ENCODING, 0] + PutU16(|encodings|) + PutEncodings(encodings)
      case UpdateRequest(incremental, x, y, w, h) =>
        [FRAMEBUFFER_UPDATE_REQUEST, Flag(incremental)] + PutU16(x) + PutU16(y) + PutU16(w) + PutU16(h)
      case KeyEvent(down, key) => [KEY_EVENT, Flag(down), 0, 0] + PutU32(key)
      case PointerEvent(mask, x, y) => [POINTER_EVENT, mask] + PutU16(x) + PutU16(y)
      case CutText(text) => [CLIENT_CUT_TEXT, 0, 0, 0] + PutU32(|text|) + text
      case QemuKeyEvent(press, keysym, keycode) =>
        [QEMU_CLIENT_MESSAGE, EXTENDED_KEY_EVENT] + PutU16(press) + PutU32(keysym) + PutU32(keycode)
    }
  }

  function Flag(b: bool): Byte { if b then 1 else 0 }

  function PutEncodings(encodings: seq<int>): (r: Data)
    requires forall i :: 0 <= i < |encodings| ==> -0x8000_0000 <= encodings[i] < 0x8000_0000
    ensures |r| == 4 * |encodings|
  {
    if encodings == [] then []
    else
      var e := encodings[0];
      PutU32(if e < 0 then e + 0x1_0000_0000 else e) + PutEncodings(encodings[1..])
  }

  predicate AllFit(ms: seq<ClientMessage>) {
    forall i :: 0 <= i < |ms| ==> ms[i].Fits()
  }

  function PrintAll(ms: seq<ClientMessage>): Data
    requires AllFit(ms)
  {
    if ms == [] then [] else ms[0].Print() + PrintAll(ms[1..])
  }

  /** The first update request is message k. */
  predicate FirstRequest(ms: seq<ClientMessage>, k: int) {
    0 <= k < |ms| && ms[k].UpdateRequest? && forall j :: 0 <= j < k ==> !ms[j].UpdateRequest?
  }

  /** The messages after the first update request, or None if there is no request. */
  function AfterRequest(ms: seq<ClientMessage>): (r: Option<seq<ClientMessage>>)
    ensures r.Some? ==> exists k :: FirstRequest(ms, k) && r.value == ms[k + 1..]
    ensures r.None? ==> forall j :: 0 <= j < |ms| ==> !ms[j].UpdateRequest?
  {
    if ms == [] then None
    else if ms[0].UpdateRequest? then
      assert FirstRequest(ms, 0);
      Some(ms[1..])
    else
      var r := AfterRequest(ms[1..]);
      assert r.Some? ==> exists k :: FirstRequest(ms, k) && r.value == ms[k + 1..] by {
        if r.Some? {
          var k :| FirstRequest(ms[1..], k) && r.value == ms[1..][k + 1..];
          FirstRequestOneOn(ms, k);
        }
      }
      r
  }

  lemma {:induction false} FirstRequestOneOn(ms: seq<ClientMessage>, k: int)
    requires ms != [] && !ms[0].UpdateRequest? && FirstRequest(ms[1..], k)
    ensures FirstRequest(ms, k + 1) && ms[k + 2..] == ms[1..][k + 1..]
  {
    forall j | 0 <= j < k + 1 ensures !ms[j].UpdateRequest? {
      if 0 < j {
        assert ms[j] == ms[1..][j - 1];
      }
    }
  }

  /** Every printed message is measured at exactly its own length, whatever follows it. */
  lemma {:induction false} PrintIsMeasured(m: ClientMessage, more: Data)
    requires m.Fits()
    ensures MessageLength(m.Print() + more) == Measured(|m.Print()|)
    ensures m.Print()[0] == FRAMEBUFFER_UPDATE_REQUEST <==> m.UpdateRequest?
  {
    var p := m.Print();
    match m {
      case SetEncodings(encodings) =>
        assert (p + more)[2..4] == p[2..4] == PutU16(|encodings|);
      case CutText(text) =>
        assert (p + more)[4..8] == p[4..8] == PutU32(|text|);
      case _ =>
    }
  }

  /** What a message means to a server, by section 7.5 of RFC 6143: fields at fixed places. */
  function Understand(m: Data): Option<ClientMessage>
    requires m != []
  {
    if m[0] == SET_PIXEL_FORMAT && |m| == 20 then Some(SetPixelFormat(m[4..20]))
    else if m[0] == SET_ENCODING && 4 <= |m| == 4 + 4 * U16(m[2..4]) then Some(SetEncodings(ReadEncodings(m[4..])))
    else if m[0] == FRAMEBUFFER_UPDATE_REQUEST && |m| == 10 then
      Some(UpdateRequest(m[1] != 0, U16(m[2..4]), U16(m[4..6]), U16(m[6..8]), U16(m[8..10])))
    else if m[0] == KEY_EVENT && |m| == 8 then Some(KeyEvent(m[1] != 0, U32(m[4..8])))
    else if m[0] == POINTER_EVENT && |m| == 6 then Some(PointerEvent(m[1], U16(m[2..4]), U16(m[4..6])))
    else if m[0] == CLIENT_CUT_TEXT && 8 <= |m| == 8 + U32(m[4..8]) then Some(CutText(m[8..]))
    else if m[0] == QEMU_CLIENT_MESSAGE && |m| == 12 && m[1] == EXTENDED_KEY_EVENT then
      Some(QemuKeyEvent(U16(m[2..4]), U32(m[4..8]), U32(m[8..12])))
    else None
  }

  function ReadEncodings(m: Data): seq<int> {
    if |m| < 4 then []
    else
      var e: int := U32(m[..4]);
      [if e < 0x8000_0000 then e else e - 0x1_0000_0000] + ReadEncodings(m[4..])
  }

  lemma {:induction false} EncodingsReadBack(encodings: seq<int>)
    requires forall i :: 0 <= i < |encodings| ==> -0x8000_0000 <= encodings[i] < 0x8000_0000
    ensures ReadEncodings(PutEncodings(encodings)) == encodings
    decreases |encodings|
  {
    hide U32, PutU32;
    if encodings != [] {
      var m, e := PutEncodings(encodings), encodings[0];
      assert m[..4] == PutU32(if e < 0 then e + 0x1_0000_0000 else e) && m[4..] == PutEncodings(encodings[1..]);
      EncodingsReadBack(encodings[1..]);
    }
  }

  /** A server understands exactly what the client meant. */
  lemma {:induction false} PrintIsUnderstood(m: ClientMessage)
    requires m.Fits()
    ensures Understand(m.Print()) == Some(m)
  {
    hide U16, U32, PutU16, PutU32, PutEncodings, ReadEncodings;
    var p := m.Print();
    match m {
      case SetPixelFormat(format) => assert p[4..20] == format;
      case SetEncodings(encodings) =>
        assert p[2..4] == PutU16(|encodings|) && p[4..] == PutEncodings(encodings);
        EncodingsReadBack(encodings);
      case UpdateRequest(_, x, y, w, h) => RequestIsUnderstood(m);
      case KeyEvent(_, key) => assert p[4..8] == PutU32(key);
      case PointerEvent(_, x, y) => assert p[2..4] == PutU16(x) && p[4..6] == PutU16(y);
      case CutText(text) => assert p[4..8] == PutU32(|text|) && p[8..] == text;
      case QemuKeyEvent(press, keysym, keycode) =>
        assert p[2..4] == PutU16(press) && p[4..8] == PutU32(keysym) && p[8..12] == PutU32(keycode);
    }
  }

  lemma {:induction false} RequestIsUnderstood(m: ClientMessage)
    requires m.Fits() && m.UpdateRequest?
    ensures Understand(m.Print()) == Some(m)
  {
    hide U16, PutU16;
    var p := m.Print();
    assert p[2..4] == PutU16(m.x);
    assert p[4..6] == PutU16(m.y);
    assert p[6..8] == PutU16(m.width);
    assert p[8..10] == PutU16(m.height);
  }

  /** Which heads cannot be measured, however much follows: kinds this table does not list, and QEMU
      messages that are not extended key events. */
  lemma {:induction false} UnmeasurableExactly(head: Byte, sub: Byte, more: Data)
    ensures MessageLength([head, sub] + more).UnknownMessage? <==>
            head !in {0, 2, 3, 4, 5, 6, 255} || (head == 255 && sub != 0)
  {
  }

  /** A message cut short is never taken for a whole one. */
  lemma {:induction false} CutMessageIsIncomplete(m: ClientMessage, k: nat)
    requires m.Fits() && k < |m.Print()|
    ensures Incomplete(m.Print()[..k])
  {
    hide MessageLength, ClientMessage.Print;
    var head, tail := m.Print()[..k], m.Print()[k..];
    if head != [] {
      assert head + tail == m.Print() && m.Print() + [] == m.Print();
      PrintIsMeasured(m, []);
      if !MessageLength(head).NeedMore? {
        LengthIsStable(head, tail);
      }
    }
  }

  /** `saw_update_request` undoes the writers: of any printed messages and an incomplete tail it
      removes exactly those through the first update request, or all of them if none is one. */
  lemma {:induction false} ScanUndoesPrint(ms: seq<ClientMessage>, tail: Data)
    requires AllFit(ms) && Incomplete(tail)
    ensures Scan(PrintAll(ms) + tail) ==
            match AfterRequest(ms)
            case Some(after) => assert AllFit(after); Scanned(true, PrintAll(after) + tail)
            case None => Scanned(false, tail)
    decreases |ms|
  {
    hide MessageLength, ClientMessage.Print;
    if ms == [] {
      assert PrintAll(ms) + tail == tail;
    } else {
      var p, more := ms[0].Print(), PrintAll(ms[1..]) + tail;
      assert PrintAll(ms) + tail == p + more by { Associative(p, PrintAll(ms[1..]), tail); }
      PrintIsMeasured(ms[0], more);
      assert (p + more)[0] == p[0] && (p + more)[|p|..] == more;
      if !ms[0].UpdateRequest? {
        ScanUndoesPrint(ms[1..], tail);
      }
      PrintIsMeasured(ms[0], []);
    }
  }
}
