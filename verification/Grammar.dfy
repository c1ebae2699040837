/**
  The RFB handshake grammar of `HandshakeScrubber._run` (vncdotool/capture.py).

  The generator becomes a datatype of positions: `Want` is what it yields next,
  `Next` is one `send`, and `Recording` is what that chunk leaves in the capture.
 */
module Grammar {
  import opened Bytes

  datatype Direction = S2C | C2S

  const NONE := 1
  const VNC_AUTHENTICATION := 2
  const DIFFIE_HELLMAN := 30
  const ARD_CREDENTIALS_LEN := 128

  // ----- the client's version reply -----

  datatype Version = Version(major: int, minor: int) {
    /** Python's tuple comparison `this >= (major', minor')`. */
    predicate AtLeast(major': int, minor': int) {
      major > major' || (major == major' && minor >= minor')
    }
  }

  predicate IsSpace(b: Byte) { 9 <= b <= 13 || b == 32 }

  predicate IsDigit(b: Byte) { 48 <= b <= 57 }

  function TrimLeft(s: Data): Data {
    if s != [] && IsSpace(s[0]) then TrimLeft(s[1..]) else s
  }

  function TrimRight(s: Data): Data {
    if s != [] && IsSpace(s[|s| - 1]) then TrimRight(s[..|s| - 1]) else s
  }

  /** Digits with single underscores between them, as a Python literal allows. */
  predicate IsNumeral(s: Data) {
    && s != []
    && IsDigit(s[0]) && IsDigit(s[|s| - 1])
    && (forall i :: 0 <= i < |s| ==> IsDigit(s[i]) || s[i] == 95)
    && (forall i :: 0 < i < |s| ==> IsDigit(s[i - 1]) || IsDigit(s[i]))
  }

  function Decimal(s: Data): nat
    requires forall i :: 0 <= i < |s| ==> IsDigit(s[i]) || s[i] == 95
  {
    assert s != [] ==> IsDigit(s[|s| - 1]) || s[|s| - 1] == 95;
    if s == [] then 0
    else if s[|s| - 1] == 95 then Decimal(s[..|s| - 1])
    else 10 * Decimal(s[..|s| - 1]) + (s[|s| - 1] as int - 48)
  }

  /** `int(s)` on bytes: None is its ValueError. Surrounding blanks and a sign are accepted. */
  function PythonInt(s: Data): Option<int> {
    var t := TrimRight(TrimLeft(s));
    if t != [] && (t[0] == 43 || t[0] == 45) then
      if !IsNumeral(t[1..]) then None
      else if t[0] == 43 then Some(Decimal(t[1..]))
      else Some(-(Decimal(t[1..]) as int))
    else if IsNumeral(t) then Some(Decimal(t))
    else None
  }

  function ParseVersion(head: Data): Option<Version>
    requires |head| == 12
  {
    var major, minor := PythonInt(head[4..7]), PythonInt(head[8..11]);
    if major.Some? && minor.Some? then Some(Version(major.value, minor.value)) else None
  }

  /** `decode("ascii", "replace").rstrip("\n")`. */
  function GreetingText(head: Data): string {
    if head != [] && head[|head| - 1] == 10 then GreetingText(head[..|head| - 1])
    else seq(|head|, i requires 0 <= i < |head| =>
                       if head[i] < 128 then head[i] as char else '\U{FFFD}')
  }

  /** The greeting without the newlines at its end, and with a replacement for what is not ASCII. */
  lemma {:induction false} GreetingTextMeaning(head: Data)
    ensures var text := GreetingText(head);
            && |text| <= |head|
            && (forall i :: |text| <= i < |head| ==> head[i] == 10)
            && (text == [] || head[|text| - 1] != 10)
            && forall i :: 0 <= i < |text| ==> text[i] == if head[i] < 128 then head[i] as char else '\U{FFFD}'
    decreases |head|
  {
    if head != [] && head[|head| - 1] == 10 {
      GreetingTextMeaning(head[..|head| - 1]);
    }
  }

  /** Decimal digits, as they are written. */
  function PutDecimal(n: nat): (s: Data)
    ensures s != [] && forall i :: 0 <= i < |s| ==> IsDigit(s[i])
  {
    if n < 10 then [48 + n] else PutDecimal(n / 10) + [48 + n % 10]
  }

  lemma {:induction false} DecimalReadsBack(n: nat)
    ensures Decimal(PutDecimal(n)) == n
    decreases n
  {
    var s := PutDecimal(n);
    if n < 10 {
      assert s[..0] == [] && Decimal([]) == 0;
    } else {
      DecimalReadsBack(n / 10);
      assert s[..|s| - 1] == PutDecimal(n / 10);
    }
  }

  lemma {:induction false} NoBlanks(s: Data)
    requires s != [] && !IsSpace(s[0]) && !IsSpace(s[|s| - 1])
    ensures TrimLeft(s) == s && TrimRight(s) == s
  {
  }

  /** Python's int reads every number back, with or without a sign. */
  lemma {:induction false} PythonIntReadsBack(n: nat)
    ensures PythonInt(PutDecimal(n)) == Some(n)
    ensures PythonInt([43] + PutDecimal(n)) == Some(n)
    ensures PythonInt([45] + PutDecimal(n)) == Some(-(n as int))
  {
    hide Decimal, TrimLeft, TrimRight;
    var s := PutDecimal(n);
    var plus, minus := [43] + s, [45] + s;
    DecimalReadsBack(n);
    assert IsNumeral(s);
    NoBlanks(s);
    NoBlanks(plus);
    NoBlanks(minus);
    assert plus[1..] == s && minus[1..] == s;
  }

  /** Blanks around a number do not matter. */
  lemma {:induction false} BlanksAreTrimmed(s: Data, blank: Byte)
    requires IsSpace(blank)
    ensures PythonInt([blank] + s) == PythonInt(s) && PythonInt(s + [blank]) == PythonInt(s)
  {
    hide IsNumeral, Decimal;
    assert ([blank] + s)[1..] == s;
    TrimsBehind(s, blank);
  }

  lemma {:induction false} TrimsBehind(s: Data, blank: Byte)
    requires IsSpace(blank)
    ensures TrimRight(TrimLeft(s + [blank])) == TrimRight(TrimLeft(s))
    decreases |s|
  {
    if s != [] && IsSpace(s[0]) {
      assert (s + [blank])[1..] == s[1..] + [blank];
      TrimsBehind(s[1..], blank);
    } else if s == [] {
      assert TrimLeft([blank]) == TrimLeft([blank][1..]) == TrimLeft([]);
    } else {
      assert TrimLeft(s + [blank]) == s + [blank];
      assert (s + [blank])[..|s|] == s;
    }
  }

  /** A single underscore between digits does not matter either. */
  lemma {:induction false} UnderscoreIsSkipped(a: Data, b: Data)
    requires IsNumeral(a) && IsNumeral(b)
    ensures PythonInt(a + [95] + b) == PythonInt(a + b) == Some(Decimal(a + b))
  {
    hide Decimal, TrimLeft, TrimRight;
    var s, t := a + [95] + b, a + b;
    forall i | 0 < i < |s| ensures IsDigit(s[i - 1]) || IsDigit(s[i]) {
    }
    assert IsNumeral(s);
    forall i | 0 < i < |t| ensures IsDigit(t[i - 1]) || IsDigit(t[i]) {
    }
    assert IsNumeral(t);
    NoBlanks(s);
    NoBlanks(t);
    DecimalSkips(a, b);
  }

  lemma {:induction false} DecimalSkips(a: Data, b: Data)
    requires forall i :: 0 <= i < |a| ==> IsDigit(a[i]) || a[i] == 95
    requires forall i :: 0 <= i < |b| ==> IsDigit(b[i]) || b[i] == 95
    ensures Decimal(a + [95] + b) == Decimal(a + b)
    decreases |b|
  {
    if b == [] {
      assert a + [95] + b == a + [95] && (a + [95])[..|a|] == a && a + b == a;
    } else {
      var n := |b| - 1;
      assert (a + [95] + b)[..|a + [95] + b| - 1] == a + [95] + b[..n];
      assert (a + b)[..|a + b| - 1] == a + b[..n];
      DecimalSkips(a, b[..n]);
    }
  }

  lemma {:induction false} TrimKeeps(s: Data, i: nat)
    requires i < |s| && !IsSpace(s[i])
    ensures s[i] in TrimRight(TrimLeft(s))
    decreases |s|
  {
    if IsSpace(s[0]) {
      TrimKeeps(s[1..], i - 1);
    } else if IsSpace(s[|s| - 1]) {
      assert TrimLeft(s) == s;
      TrimKeepsRight(s, i);
    }
  }

  lemma {:induction false} TrimKeepsRight(s: Data, i: nat)
    requires i < |s| && !IsSpace(s[i])
    ensures s[i] in TrimRight(s)
    decreases |s|
  {
    if IsSpace(s[|s| - 1]) {
      TrimKeepsRight(s[..|s| - 1], i);
    }
  }

  /** Anything else in it is an error. */
  lemma {:induction false} OtherBytesAreErrors(s: Data, i: nat)
    requires i < |s| && !IsSpace(s[i]) && !IsDigit(s[i]) && s[i] !in {43, 45, 95}
    ensures PythonInt(s).None?
  {
    hide Decimal, TrimLeft, TrimRight;
    TrimKeeps(s, i);
  }

  // ----- positions of the generator -----

  datatype Phase =
    | Greeting
    | VersionReply
    | TypeCount(v: Version)
    | TypeList(v: Version, count: nat)
    | TypeChoice(v: Version)
    | DirectType(v: Version)
    | Challenge(v: Version)
    | Response(v: Version)
    | ArdHead(v: Version)
    | ArdModulus(v: Version, keyLen: nat)
    | ArdServerKey(v: Version, keyLen: nat)
    | ArdCredentials(v: Version, keyLen: nat)
    | ArdClientKey(v: Version, keyLen: nat)
    | SecurityResult(v: Version)
    | ClientInit
    | ServerInit
    | ServerName(length: nat)
    | Done

  datatype Want = Want(direction: Direction, nbytes: nat)

  /** `waiting()`: what the grammar is parked on, or None once it has finished. */
  function Waiting(p: Phase): Option<Want> {
    match p
    case Greeting => Some(Want(S2C, 12))
    case VersionReply => Some(Want(C2S, 12))
    case TypeCount(_) => Some(Want(S2C, 1))
    case TypeList(_, count) => Some(Want(S2C, count))
    case TypeChoice(_) => Some(Want(C2S, 1))
    case DirectType(_) => Some(Want(S2C, 4))
    case Challenge(_) => Some(Want(S2C, 16))
    case Response(_) => Some(Want(C2S, 16))
    case ArdHead(_) => Some(Want(S2C, 4))
    case ArdModulus(_, keyLen) => Some(Want(S2C, keyLen))
    case ArdServerKey(_, keyLen) => Some(Want(S2C, keyLen))
    case ArdCredentials(_, _) => Some(Want(C2S, ARD_CREDENTIALS_LEN))
    case ArdClientKey(_, keyLen) => Some(Want(C2S, keyLen))
    case SecurityResult(_) => Some(Want(S2C, 4))
    case ClientInit => Some(Want(C2S, 1))
    case ServerInit => Some(Want(S2C, 24))
    case ServerName(length) => Some(Want(S2C, length))
    case Done => None
  }

  predicate Awaits(p: Phase, d: Direction) {
    Waiting(p).Some? && Waiting(p).value.direction == d
  }

  function Need(p: Phase): nat
    requires Waiting(p).Some?
  {
    Waiting(p).value.nbytes
  }

  /** Steps left before the generator returns: every `send` lowers it, zero-byte wants included. */
  function Rank(p: Phase): nat {
    match p
    case Greeting => 14
    case VersionReply => 13
    case TypeCount(_) => 12
    case TypeList(_, _) => 11
    case TypeChoice(_) => 10
    case DirectType(_) => 10
    case ArdHead(_) => 9
    case ArdModulus(_, _) => 8
    case ArdServerKey(_, _) => 7
    case ArdCredentials(_, _) => 6
    case ArdClientKey(_, _) => 5
    case Challenge(_) => 6
    case Response(_) => 5
    case SecurityResult(_) => 4
    case ClientInit => 3
    case ServerInit => 2
    case ServerName(_) => 1
    case Done => 0
  }

  /** Counts the generator itself has already found to be non-zero. */
  predicate Sound(p: Phase) {
    match p
    case TypeList(_, count) => 0 < count < 256
    case ServerName(length) => 0 < length
    case _ => true
  }

  /** True across the auth exchange (`_in_auth`). */
  predicate InAuth(p: Phase) {
    p.Challenge? || p.Response? || p.ArdHead? || p.ArdModulus? || p.ArdServerKey?
    || p.ArdCredentials? || p.ArdClientKey?
  }

  // ----- what the scrubber learns on the way -----

  datatype Abort = UnreadableVersion | Unfollowable(sectype: nat)

  datatype Facts = Facts(
    protocolVersion: Option<string>,
    negotiated: Option<Version>,
    securityTypes: seq<nat>,
    securityType: Option<nat>,
    unstrippable: Option<nat>,
    abort: Option<Abort>,
    geometry: Option<(nat, nat)>)

  const NoFacts := Facts(None, None, [], None, None, None, None)

  datatype State = State(phase: Phase, facts: Facts)

  const Start := State(Greeting, NoFacts)

  /** Where the exchange goes once the auth part is over: pre-3.8 `none` has no SecurityResult. */
  function AfterAuth(v: Version, sectype: nat): Phase {
    if !v.AtLeast(3, 8) && sectype == NONE then ClientInit else SecurityResult(v)
  }

  function EnterAuth(preserve: bool, v: Version, sectype: nat, f: Facts): State {
    var f := f.(securityType := Some(sectype));
    if sectype == VNC_AUTHENTICATION then State(Challenge(v), f)
    else if sectype == DIFFIE_HELLMAN then State(ArdHead(v), f)
    else if sectype == NONE || sectype == 0 then State(AfterAuth(v, sectype), f)
    else
      State(Done, f.(unstrippable := Some(sectype),
                     abort := if preserve then f.abort else Some(Unfollowable(sectype))))
  }

  /** One `_advance(chunk)`. */
  function Next(preserve: bool, s: State, chunk: Data): (t: State)
    requires Waiting(s.phase).Some? && |chunk| == Need(s.phase) && Sound(s.phase)
    ensures Sound(t.phase) && Rank(t.phase) < Rank(s.phase)
    ensures Waiting(t.phase).Some? && Need(t.phase) == 0 ==> Awaits(s.phase, Waiting(t.phase).value.direction)
  {
    var f := s.facts;
    match s.phase
    case Greeting =>
      State(VersionReply, f.(protocolVersion := Some(GreetingText(chunk))))
    case VersionReply =>
      (match ParseVersion(chunk)
       case None => State(Done, f.(abort := if preserve then f.abort else Some(UnreadableVersion)))
       case Some(v) =>
         State(if v.AtLeast(3, 7) then TypeCount(v) else DirectType(v), f.(negotiated := Some(v))))
    case TypeCount(v) =>
      State(if chunk[0] == 0 then Done else TypeList(v, chunk[0]), f)
    case TypeList(v, _) => State(TypeChoice(v), f.(securityTypes := chunk))
    case TypeChoice(v) => EnterAuth(preserve, v, chunk[0], f)
    case DirectType(v) =>
      if U32(chunk) == 0 then State(Done, f)
      else EnterAuth(preserve, v, U32(chunk), f.(securityTypes := [U32(chunk)]))
    case Challenge(v) => State(Response(v), f)
    case Response(v) => State(SecurityResult(v), f)
    case ArdHead(v) => State(ArdModulus(v, U16(chunk[2..4])), f)
    case ArdModulus(v, k) => State(ArdServerKey(v, k), f)
    case ArdServerKey(v, k) => State(ArdCredentials(v, k), f)
    case ArdCredentials(v, k) => State(ArdClientKey(v, k), f)
    case ArdClientKey(v, _) => State(SecurityResult(v), f)
    case SecurityResult(_) => State(if U32(chunk) == 0 then ClientInit else Done, f)
    case ClientInit => State(ServerInit, f)
    case ServerInit =>
      var length := U32(chunk[20..24]);
      State(if length == 0 then Done else ServerName(length),
            f.(geometry := Some((U16(chunk[0..2]), U16(chunk[2..4])))))
    case ServerName(_) => State(Done, f)
  }

  /** What one chunk adds to the capture. */
  function Recording(preserve: bool, p: Phase, chunk: Data): Data
    requires Waiting(p).Some? && |chunk| == Need(p)
  {
    if preserve then chunk
    else
      match p
      case TypeCount(_) => if chunk[0] == 0 then chunk else []
      case TypeList(_, _) => [1, NONE]
      case TypeChoice(_) => [NONE]
      case DirectType(_) => if U32(chunk) == 0 then chunk else PutU32(NONE)
      case SecurityResult(v) =>
        if U32(chunk) != 0 then if v.AtLeast(3, 8) then chunk else []
        else if v.AtLeast(3, 8) then PutU32(0) else []
      case _ => if InAuth(p) then [] else chunk
  }
}
