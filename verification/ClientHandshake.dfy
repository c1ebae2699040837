/**
  The handshake side of `RFBClient` (vncdotool/rfb.py): which handler is armed with how many
  bytes, and what each one writes. The crypto is a parameter: `Secrets` answers the challenges.
 */
module ClientHandshake {
  import opened Bytes
  import opened Grammar

  /** What the user and the cryptography contribute. */
  datatype Secrets = Secrets(
    shared: bool,
    username: string,
    password: Option<string>,
    /** What the user types when ARD asks for a password that was not given. */
    typed: string,
    /** DES of a challenge under a key of eight characters. */
    vncResponse: (string, Data) -> Data,
    /** AES in ECB mode under the key agreed from (generator, modulus, server key). */
    encrypt: (Data, Data, Data, Data) -> Data,
    ardPublicKey: (Data, Data, Data) -> Data)
  {
    /** `ardRequestCredentials`. */
    function ArdPassword(): string {
      if password.Some? then password.value else typed
    }

    /** There is a password and it makes a DES key. */
    predicate CanAnswer() {
      password.Some? && Ascii(VncKey(password.value))
    }

    /** DES answers 16 bytes with 16, AES keeps lengths, a public key is as long as the modulus. */
    ghost predicate Proper() {
      && (forall key, c :: |c| == 16 ==> |vncResponse(key, c)| == 16)
      && (forall g, m, key, text :: |encrypt(g, m, key, text)| == |text|)
      && (forall g, m, key :: |ardPublicKey(g, m, key)| == |m|)
    }
  }

  /** `f"{password:\0<8.8}"`, which is then encoded as ASCII. */
  function VncKey(password: string): (key: string)
    ensures |key| == 8
    ensures forall i :: 0 <= i < 8 ==> key[i] == if i < |password| then password[i] else '\0'
  {
    if |password| < 8 then password + seq(8 - |password|, i => '\0') else password[..8]
  }

  // ----- ARD credentials -----

  const ARD_FIELD := 64
  const AES_BLOCK := 16

  function Utf8Char(c: char): (r: Data)
    ensures 1 <= |r| <= 4 && (|r| == 1 <==> c as int < 128)
  {
    var n := c as int;
    if n < 0x80 then [n]
    else if n < 0x800 then [192 + n / 64, 128 + n % 64]
    else if n < 0x1_0000 then [224 + n / 4096, 128 + n / 64 % 64, 128 + n % 64]
    else [240 + n / 262144, 128 + n / 4096 % 64, 128 + n / 64 % 64, 128 + n % 64]
  }

  /** `s.encode("utf-8")`. */
  function Utf8(s: string): Data {
    if s == [] then [] else Utf8Char(s[0]) + Utf8(s[1..])
  }

  predicate Ascii(s: string) {
    forall i :: 0 <= i < |s| ==> s[i] as int < 128
  }

  /** `f"{field:\0<64}"`: padded to 64 characters, and left alone beyond. */
  function Pad(field: string): (r: string)
    ensures field <= r && |r| == if |field| < ARD_FIELD then ARD_FIELD else |field|
    ensures forall i :: |field| <= i < |r| ==> r[i] == '\0'
  {
    field + seq(if |field| < ARD_FIELD then ARD_FIELD - |field| else 0, i => '\0')
  }

  /** What `_encryptArd` encrypts: both fields padded as characters, then encoded together. */
  function ArdPlaintext(username: string, password: string): Data {
    Utf8(Pad(username) + Pad(password))
  }

  /** Encoding never shortens, and keeps the length of ASCII text alone. */
  lemma {:induction false} Utf8Length(s: string)
    ensures |s| <= |Utf8(s)| && (|Utf8(s)| == |s| <==> Ascii(s))
  {
    hide Utf8Char;
    if s != [] {
      Utf8Length(s[1..]);
      assert s == [s[0]] + s[1..];
      assert Ascii(s) <==> s[0] as int < 128 && Ascii(s[1..]);
    }
  }

  /** A field the scrubber's fixed length has room for. */
  predicate FitsField(field: string) {
    |field| <= ARD_FIELD && Ascii(field)
  }

  lemma {:induction false} PadIsAscii(field: string)
    ensures Ascii(Pad(field)) <==> Ascii(field)
  {
    hide Pad;
    if Ascii(field) {
      forall i | 0 <= i < |Pad(field)| ensures Pad(field)[i] as int < 128 {
        assert i < |field| ==> Pad(field)[i] == field[i];
      }
    } else {
      var i :| 0 <= i < |field| && field[i] as int >= 128;
      assert Pad(field)[i] == field[i];
    }
  }

  /** The scrubber's fixed credential length is right exactly when username and password have at
      most 64 characters and are ASCII. */
  lemma {:induction false} ArdLengthHolds(username: string, password: string)
    ensures |ArdPlaintext(username, password)| == ARD_CREDENTIALS_LEN <==>
            FitsField(username) && FitsField(password)
  {
    hide Utf8, Pad;
    var u, p := Pad(username), Pad(password);
    Utf8Length(u + p);
    PadIsAscii(username);
    PadIsAscii(password);
    assert Ascii(u + p) <==> Ascii(u) && Ascii(p) by {
      assert forall i :: 0 <= i < |u| ==> (u + p)[i] == u[i];
      assert forall i :: 0 <= i < |p| ==> p[i] == (u + p)[|u| + i];
    }
  }

  // ----- what the credentials say -----

  predicate Continues(b: Byte) { 128 <= b < 192 }

  /** The code point a UTF-8 string starts with, by section 3 of RFC 3629, and the bytes it takes. */
  function CodePoint(s: Data): (r: Option<(nat, nat)>)
    ensures r.Some? ==> 0 < r.value.1 <= |s|
  {
    if s == [] then None
    else if s[0] < 128 then Some((s[0], 1))
    else if 192 <= s[0] < 224 && 2 <= |s| && Continues(s[1]) then
      Some((64 * (s[0] as int - 192) + (s[1] as int - 128), 2))
    else if 224 <= s[0] < 240 && 3 <= |s| && Continues(s[1]) && Continues(s[2]) then
      Some((64 * (64 * (s[0] as int - 224) + (s[1] as int - 128)) + (s[2] as int - 128), 3))
    else if 240 <= s[0] < 248 && 4 <= |s| && Continues(s[1]) && Continues(s[2]) && Continues(s[3]) then
      Some((64 * (64 * (64 * (s[0] as int - 240) + (s[1] as int - 128)) + (s[2] as int - 128))
            + (s[3] as int - 128), 4))
    else None
  }

  function CodePoints(s: Data): Option<seq<nat>> {
    if s == [] then Some([])
    else
      match CodePoint(s)
      case None => None
      case Some((c, n)) =>
        match CodePoints(s[n..])
        case None => None
        case Some(more) => Some([c] + more)
  }

  function Codes(s: string): (r: seq<nat>)
    ensures |r| == |s|
  {
    seq(|s|, i requires 0 <= i < |s| => s[i] as int)
  }

  lemma {:induction false} CharReadsBack(c: char, more: Data)
    ensures CodePoint(Utf8Char(c) + more) == Some((c as int, |Utf8Char(c)|))
  {
    var n := c as int;
    if 0x800 <= n < 0x1_0000 {
      assert n / 64 / 64 == n / 4096;
    } else if 0x1_0000 <= n {
      assert n / 64 / 64 == n / 4096 && n / 4096 / 64 == n / 262144;
    }
  }

  /** Encoding loses nothing. */
  lemma {:induction false} Utf8ReadsBack(s: string)
    ensures CodePoints(Utf8(s)) == Some(Codes(s))
    decreases |s|
  {
    hide Utf8Char, CodePoint;
    if s != [] {
      var head, rest := Utf8Char(s[0]), Utf8(s[1..]);
      CharReadsBack(s[0], rest);
      assert (head + rest)[|head|..] == rest;
      Utf8ReadsBack(s[1..]);
      assert Codes(s) == [s[0] as int] + Codes(s[1..]);
    }
  }

  lemma {:induction false} AsciiIsBytes(s: string)
    requires Ascii(s)
    ensures Utf8(s) == Codes(s)
    decreases |s|
  {
    if s != [] {
      AsciiIsBytes(s[1..]);
      assert Codes(s) == [s[0] as int] + Codes(s[1..]);
    }
  }

  /** For any username and password: first the one, then the other, each followed by zeros up to 64. */
  lemma {:induction false} ArdPlaintextReads(username: string, password: string)
    ensures var n := if |username| < ARD_FIELD then ARD_FIELD else |username|;
            var m := if |password| < ARD_FIELD then ARD_FIELD else |password|;
            && CodePoints(ArdPlaintext(username, password)).Some?
            && var d := CodePoints(ArdPlaintext(username, password)).value;
               && |d| == n + m
               && (forall i :: 0 <= i < n ==> d[i] == if i < |username| then username[i] as int else 0)
               && forall i :: 0 <= i < m ==> d[n + i] == if i < |password| then password[i] as int else 0
  {
    hide Utf8, CodePoints;
    Utf8ReadsBack(Pad(username) + Pad(password));
  }

  /** For credentials that fit: byte by byte. */
  lemma {:induction false} ArdPlaintextBytes(username: string, password: string)
    requires FitsField(username) && FitsField(password)
    ensures var text := ArdPlaintext(username, password);
            && |text| == 128
            && forall i :: 0 <= i < 64 ==>
                 && text[i] == (if i < |username| then username[i] as int else 0)
                 && text[64 + i] == if i < |password| then password[i] as int else 0
  {
    hide Utf8;
    PadIsAscii(username);
    PadIsAscii(password);
    AsciiIsBytes(Pad(username) + Pad(password));
  }

  lemma {:induction false} Utf8Repeats(c: char, n: nat, rest: string)
    ensures |Utf8(seq(n, i => c) + rest)| == n * |Utf8Char(c)| + |Utf8(rest)|
  {
    hide Utf8Char;
    var s := seq(n, i => c);
    if n == 0 {
      assert s + rest == rest;
    } else {
      assert (s + rest)[0] == c && (s + rest)[1..] == seq(n - 1, i => c) + rest;
      Utf8Repeats(c, n - 1, rest);
    }
  }

  /** Two usernames that break it with an empty password: 80 ASCII characters, and 16 characters of
      two bytes each. Both plaintexts are whole AES blocks, so both are encrypted and written. */
  lemma {:induction false} ArdLengthFails()
    ensures |ArdPlaintext(seq(80, i => 'a'), "")| == 144
    ensures |ArdPlaintext(seq(16, i => '\U{E9}'), "")| == 144
    ensures 144 != ARD_CREDENTIALS_LEN && 144 % AES_BLOCK == 0
  {
    hide Utf8, Utf8Char;
    var long, accented := seq(80, i => 'a'), seq(16, i => '\U{E9}');
    assert Pad(long) + Pad("") == seq(80, i => 'a') + (seq(64, i => '\0') + "");
    Utf8Repeats('a', 80, seq(64, i => '\0') + "");
    assert Pad(accented) + Pad("") == seq(16, i => '\U{E9}') + (seq(112, i => '\0') + "");
    Utf8Repeats('\U{E9}', 16, seq(112, i => '\0') + "");
    Utf8Repeats('\0', 64, "");
    Utf8Repeats('\0', 112, "");
    Utf8OfNothing();
  }

  lemma {:induction false} Utf8OfNothing()
    ensures Utf8("") == [] && |Utf8Char('a')| == 1 && |Utf8Char('\0')| == 1 && |Utf8Char('\U{E9}')| == 2
  {
  }

  /** Why the client asks for the connection to be closed. */
  datatype Complaint =
    | BadGreeting
    | UnknownTypes
    | UnknownScheme
    | TurnedAway(text: Data)
    | NoPassword
    | WrongPassword
    | TooManyTries
    | LoginRefused(text: Data)
    | UnknownResult

  /** The exceptions a handler can raise: `max` of nothing, a password that is not ASCII, and a
      plaintext AES cannot finish. The reactor drops the connection on the spot. */
  datatype Exception = NoCommonVersion | UnencodablePassword | PartialBlock

  /** The armed handler with its arguments. */
  datatype Armed =
    | Hello
    | NumberSecurityTypes(v: Version)
    | SecurityTypes(v: Version, count: nat)
    | AuthScheme(v: Version)
    | VncChallenge(v: Version)
    | DHHead(v: Version)
    | DHKey(v: Version, generator: Data, keyLen: nat)
    | DHCert(v: Version, generator: Data, modulus: Data)
    | AuthResult(v: Version)
    | Init
    | Name(length: nat)
    | RefusalHead
    | RefusalText(length: nat)
    | FailureHead
    | FailureText(length: nat)
    | Connected
    | Crashed(why: Exception)

  predicate Active(h: Armed) {
    !h.Connected? && !h.Crashed?
  }

  /** The server has refused, or a handler has raised: no way leads from here to a connection. */
  predicate Lost(h: Armed) {
    h.RefusalHead? || h.RefusalText? || h.FailureHead? || h.FailureText? || h.Crashed?
  }

  /** `_expected_len`. */
  function Expected(h: Armed): nat
    requires Active(h)
  {
    match h
    case Hello => 12
    case NumberSecurityTypes(_) => 1
    case SecurityTypes(_, count) => count
    case AuthScheme(_) => 4
    case VncChallenge(_) => 16
    case DHHead(_) => 4
    case DHKey(_, _, keyLen) => keyLen
    case DHCert(_, _, modulus) => |modulus|
    case AuthResult(_) => 4
    case Init => 24
    case Name(length) => length
    case RefusalHead => 4
    case RefusalText(length) => length
    case FailureHead => 4
    case FailureText(length) => length
  }

  function Height(h: Armed): nat {
    match h
    case Hello => 10
    case NumberSecurityTypes(_) => 9
    case SecurityTypes(_, _) => 8
    case AuthScheme(_) => 8
    case VncChallenge(_) => 4
    case DHHead(_) => 7
    case DHKey(_, _, _) => 6
    case DHCert(_, _, _) => 5
    case AuthResult(_) => 3
    case Init => 2
    case Name(_) => 1
    case RefusalHead => 2
    case RefusalText(_) => 1
    case FailureHead => 2
    case FailureText(_) => 1
    case Connected => 0
    case Crashed(_) => 0
  }

  /** Armed for no bytes at all by a handler that does not arm another: the loop calls it for ever. */
  predicate Stuck(h: Armed) {
    (h.SecurityTypes? && h.count == 0) || (h.RefusalText? && h.length == 0) || (h.FailureText? && h.length == 0)
  }

  // ----- version negotiation -----

  /** `_HEADER`: "RFB 000.000\n". */
  const HEADER: Data := [82, 70, 66, 32, 48, 48, 48, 46, 48, 48, 48, 10]

  /** `_HEADER.startswith(norm)`: these bytes, with every digit read as 0, may become a version line. */
  predicate StartsGreeting(head: Data) {
    && |head| <= 12
    && forall i :: 0 <= i < |head| ==> if IsDigit(HEADER[i]) then IsDigit(head[i]) else head[i] == HEADER[i]
  }

  predicate IsGreeting(head: Data)
    requires |head| == 12
  {
    StartsGreeting(head)
  }

  function ThreeDigits(s: Data): int
    requires |s| == 3
  {
    100 * (s[0] as int - 48) + 10 * (s[1] as int - 48) + (s[2] as int - 48)
  }

  /** The greatest supported version not above the server's, capped at 3.8; None below 3.3. */
  function Negotiate(head: Data): (r: Option<Version>)
    requires |head| == 12
    ensures r.Some? ==> r.value in {Version(3, 3), Version(3, 7), Version(3, 8)}
  {
    if !IsGreeting(head) then None
    else
      var server := Version(ThreeDigits(head[4..7]), ThreeDigits(head[8..11]));
      if server.AtLeast(3, 8) then Some(Version(3, 8))
      else if server.AtLeast(3, 7) then Some(Version(3, 7))
      else if server.AtLeast(3, 3) then Some(Version(3, 3))
      else None
  }

  /** `SUPPORTED_SERVER_VERSIONS`. */
  const SUPPORTED: set<Version> :=
    {Version(3, 3), Version(3, 7), Version(3, 8), Version(3, 889), Version(4, 0), Version(4, 1), Version(5, 0)}

  function Capped(v: Version): Version {
    if v.AtLeast(3, 8) then Version(3, 8) else v
  }

  /** Negotiation fails exactly below every supported version, and otherwise settles on the greatest
      supported version the server reaches, capped at 3.8. */
  lemma {:induction false} NegotiateIsGreatest(head: Data)
    requires |head| == 12 && IsGreeting(head)
    ensures var server := Version(ThreeDigits(head[4..7]), ThreeDigits(head[8..11]));
            && (Negotiate(head).None? <==> forall v :: v in SUPPORTED ==> !server.AtLeast(v.major, v.minor))
            && (Negotiate(head).Some? ==>
                  && (exists v :: && v in SUPPORTED && server.AtLeast(v.major, v.minor)
                                  && Capped(v) == Negotiate(head).value)
                  && forall v :: v in SUPPORTED && server.AtLeast(v.major, v.minor) ==>
                       Negotiate(head).value.AtLeast(Capped(v).major, Capped(v).minor))
  {
    hide ThreeDigits;
    var server := Version(ThreeDigits(head[4..7]), ThreeDigits(head[8..11]));
    assert Version(3, 3) in SUPPORTED && Version(3, 7) in SUPPORTED && Version(3, 8) in SUPPORTED;
    assert forall v :: v in SUPPORTED ==> v.AtLeast(3, 3);
    assert Capped(Version(3, 3)) == Version(3, 3) && Capped(Version(3, 7)) == Version(3, 7);
    assert Capped(Version(3, 8)) == Version(3, 8);
  }

  /** `b"RFB %03d.%03d\n" % version`. */
  function Reply(v: Version): Data
    requires v in {Version(3, 3), Version(3, 7), Version(3, 8)}
  {
    [82, 70, 66, 32, 48, 48, 48 + v.major, 46, 48, 48, 48 + v.minor, 10]
  }

  // ----- one handler -----

  /** The handler armed next, the bytes this one wrote, and what it complained of. */
  datatype Handled = Handled(armed: Armed, wrote: Data, complaints: seq<Complaint>)

  /** The next handler is armed. */
  function Arms(armed: Armed, wrote: Data): Handled {
    Handled(armed, wrote, [])
  }

  /** Complain and lose the connection. `expect` is not called, so the handler stays parked. */
  function Parks(h: Armed, why: Complaint): Handled {
    Handled(h, [], [why])
  }

  /** This call does not bring the client any closer to a connection. */
  predicate Quits(h: Armed, r: Handled) {
    r.armed == h || Lost(r.armed)
  }

  function DoClientInitialization(k: Secrets, wrote: Data): Handled {
    Arms(Init, wrote + [if k.shared then 1 else 0])
  }

  /** The preferred type: the numerically greatest supported one offered. */
  function Preferred(types: Data): (r: Option<nat>)
    ensures r.None? <==> forall t :: t in types ==> t !in {NONE, VNC_AUTHENTICATION, DIFFIE_HELLMAN}
    ensures r.Some? ==> r.value in types && r.value in {NONE, VNC_AUTHENTICATION, DIFFIE_HELLMAN}
    ensures r.Some? ==> forall t :: t in types && t in {NONE, VNC_AUTHENTICATION, DIFFIE_HELLMAN} ==> t <= r.value
  {
    if DIFFIE_HELLMAN in types then Some(DIFFIE_HELLMAN)
    else if VNC_AUTHENTICATION in types then Some(VNC_AUTHENTICATION)
    else if NONE in types then Some(NONE)
    else None
  }

  /** Closer to the end, or parked with one complaint and nothing written. */
  predicate Descends(h: Armed, r: Handled) {
    Height(r.armed) < Height(h) || (r.armed == h && r.wrote == [] && |r.complaints| == 1)
  }

  function ChooseType(k: Secrets, v: Version, count: nat, preferred: Option<nat>): (r: Handled)
    ensures Descends(SecurityTypes(v, count), r)
  {
    match preferred
    case None => Parks(SecurityTypes(v, count), UnknownTypes)
    case Some(sectype) =>
      if sectype == NONE then
        if v.AtLeast(3, 8) then Arms(AuthResult(v), [NONE]) else DoClientInitialization(k, [NONE])
      else if sectype == VNC_AUTHENTICATION then Arms(VncChallenge(v), [VNC_AUTHENTICATION])
      else Arms(DHHead(v), [DIFFIE_HELLMAN])
  }

  function TakeScheme(k: Secrets, v: Version, scheme: nat): (r: Handled)
    ensures Descends(AuthScheme(v), r)
  {
    if scheme == 0 then Arms(RefusalHead, [])
    else if scheme == NONE then DoClientInitialization(k, [])
    else if scheme == VNC_AUTHENTICATION then Arms(VncChallenge(v), [])
    else Parks(AuthScheme(v), UnknownScheme)
  }

  /** `vncRequestPassword` and `sendPassword`. Without a password nothing is written, yet the result
      is awaited. */
  function AnswerChallenge(k: Secrets, v: Version, challenge: Data): (r: Handled)
    ensures Height(r.armed) < 4
  {
    if k.password.None? then Handled(AuthResult(v), [], [NoPassword])
    else if !Ascii(VncKey(k.password.value)) then Arms(Crashed(UnencodablePassword), [])
    else Arms(AuthResult(v), k.vncResponse(VncKey(k.password.value), challenge))
  }

  function TakeResult(k: Secrets, v: Version, result: nat): (r: Handled)
    ensures Descends(AuthResult(v), r)
  {
    if result == 0 then DoClientInitialization(k, [])
    else if result > 2 then Parks(AuthResult(v), UnknownResult)
    else if v.AtLeast(3, 8) then Arms(FailureHead, [])
    else Parks(AuthResult(v), if result == 1 then WrongPassword else TooManyTries)
  }

  /** ECB mode cannot finish a partial block: the cipher raises before anything is written. */
  function EncryptArd(k: Secrets, v: Version, generator: Data, modulus: Data, serverKey: Data): (r: Handled)
    ensures Height(r.armed) < 5
  {
    var text := ArdPlaintext(k.username, k.ArdPassword());
    if |text| % AES_BLOCK != 0 then Arms(Crashed(PartialBlock), [])
    else
      Arms(AuthResult(v),
           k.encrypt(generator, modulus, serverKey, text) + k.ardPublicKey(generator, modulus, serverKey))
  }

  function Handle(k: Secrets, h: Armed, block: Data): (r: Handled)
    requires Active(h) && |block| == Expected(h)
    ensures Descends(h, r) && (h != Hello ==> r.armed != Hello)
    ensures block == [] && !Stuck(h) ==> Height(r.armed) < Height(h)
  {
    match h
    case Hello =>
      if !IsGreeting(block) then Parks(h, BadGreeting)
      else
        (match Negotiate(block)
         case None => Arms(Crashed(NoCommonVersion), [])
         case Some(v) => Arms(if v.AtLeast(3, 7) then NumberSecurityTypes(v) else AuthScheme(v), Reply(v)))
    case NumberSecurityTypes(v) => Arms(if block[0] == 0 then RefusalHead else SecurityTypes(v, block[0]), [])
    case SecurityTypes(v, count) => ChooseType(k, v, count, Preferred(block))
    case AuthScheme(v) => TakeScheme(k, v, U32(block))
    case VncChallenge(v) => AnswerChallenge(k, v, block)
    case DHHead(v) => Arms(DHKey(v, block[..2], U16(block[2..4])), [])
    case DHKey(v, generator, _) => Arms(DHCert(v, generator, block), [])
    case DHCert(v, generator, modulus) => EncryptArd(k, v, generator, modulus, block)
    case AuthResult(v) => TakeResult(k, v, U32(block))
    case Init => Arms(Name(U32(block[20..24])), [])
    case Name(_) => Arms(Connected, [])
    case RefusalHead => Arms(RefusalText(U32(block)), [])
    case RefusalText(_) => Parks(h, TurnedAway(block))
    case FailureHead => Arms(FailureText(U32(block)), [])
    case FailureText(_) => Parks(h, LoginRefused(block))
  }

  // ----- the expect loop -----

  /** The client between two reads: armed handler, unconsumed bytes, everything it wrote and
      everything it complained of. */
  datatype Conversation = Conversation(armed: Armed, packet: Data, wrote: Data, complaints: seq<Complaint>)

  /** `c`, behind what had been written and complained of before it. */
  function Then(wrote: Data, complaints: seq<Complaint>, c: Conversation): Conversation {
    c.(wrote := wrote + c.wrote, complaints := complaints + c.complaints)
  }

  lemma {:induction false} ThenNothing(c: Conversation)
    ensures Then([], [], c) == c
  {
    assert [] + c.wrote == c.wrote && [] + c.complaints == c.complaints;
  }

  lemma {:induction false} ThenTwice(w: Data, x: seq<Complaint>, v: Data, y: seq<Complaint>, c: Conversation)
    ensures Then(w, x, Then(v, y, c)) == Then(w + v, x + y, c)
  {
    assert w + (v + c.wrote) == (w + v) + c.wrote && x + (y + c.complaints) == (x + y) + c.complaints;
  }

  datatype Verdict = Promising | Wrong | TooOld

  /** `_handleInitial` judges the greeting as it arrives: a wrong byte shows before the twelfth has
      come. Nothing is consumed unless a version can be settled on. */
  function Judge(packet: Data): Verdict {
    if !StartsGreeting(if |packet| < 12 then packet else packet[..12]) then Wrong
    else if 12 <= |packet| && Negotiate(packet[..12]).None? then TooOld
    else Promising
  }

  /** The loop of `_handleExpected` as far as it gets: until bytes are missing, a handler has raised,
      or the loop calls one handler on no bytes for ever (`LoopEndsExactly`). */
  function Converse(k: Secrets, h: Armed, packet: Data): Conversation
    decreases |packet|, Height(h)
  {
    if h == Hello && Judge(packet) == Wrong then Conversation(Hello, packet, [], [BadGreeting])
    else if h == Hello && Judge(packet) == TooOld then Conversation(Crashed(NoCommonVersion), packet, [], [])
    else if Active(h) && Expected(h) <= |packet| && !Stuck(h) then
      var n := Expected(h);
      var r := Handle(k, h, packet[..n]);
      Then(r.wrote, r.complaints, Converse(k, r.armed, packet[n..]))
    else Conversation(h, packet, [], [])
  }

  /** The client after receiving `heard` in all, in one read. */
  function After(k: Secrets, heard: Data): Conversation {
    Converse(k, Hello, heard)
  }

  /** Bytes are judged wrong exactly when no version line begins with them, or with their first twelve. */
  lemma {:induction false} WrongExactly(packet: Data)
    ensures var head := if |packet| < 12 then packet else packet[..12];
            Judge(packet) != Wrong <==> exists line :: |line| == 12 && IsGreeting(line) && head <= line
  {
    hide IsDigit, Negotiate;
    var head := if |packet| < 12 then packet else packet[..12];
    if StartsGreeting(head) {
      var line := head + HEADER[|head|..];
      assert IsDigit(48) by { ZeroIsDigit(); }
      forall i | 0 <= i < 12 ensures if IsDigit(HEADER[i]) then IsDigit(line[i]) else line[i] == HEADER[i] {
        if i < |head| {
          assert line[i] == head[i];
        } else {
          assert line[i] == HEADER[i];
        }
      }
      assert IsGreeting(line);
    }
    if exists line :: |line| == 12 && IsGreeting(line) && head <= line {
      var line :| |line| == 12 && IsGreeting(line) && head <= line;
      assert forall i :: 0 <= i < |head| ==> head[i] == line[i];
    }
  }

  lemma {:induction false} ZeroIsDigit()
    ensures IsDigit(48)
  {
  }

  /** What has been judged wrong or too old stays so. */
  lemma {:induction false} VerdictStays(a: Data, b: Data)
    requires Judge(a) != Promising
    ensures Judge(a + b) == Judge(a)
  {
    hide Negotiate, IsDigit;
    if |a| < 12 {
      var head := if |a + b| < 12 then a + b else (a + b)[..12];
      assert forall i :: 0 <= i < |a| ==> a[i] == head[i];
    } else {
      assert (a + b)[..12] == a[..12];
    }
  }

  /** A greeting that can be negotiated is promising, however little of it has come. */
  lemma {:induction false} AcceptedGreeting(packet: Data, n: nat)
    requires 12 <= |packet| && Negotiate(packet[..12]).Some? && n <= |packet|
    ensures Judge(packet[..n]) == Promising
  {
    hide IsDigit;
    var part := packet[..n];
    var head := if n < 12 then part else part[..12];
    assert forall i :: 0 <= i < |head| ==> head[i] == packet[..12][i];
    if 12 <= n {
      assert head == packet[..12];
    }
  }

  lemma {:induction false} WholeGreeting(a: Data, b: Data)
    requires 12 <= |a| && Judge(a) == Promising
    ensures Judge(a + b) == Promising
  {
    hide StartsGreeting, Negotiate;
    assert (a + b)[..12] == a[..12];
  }

  /** Stopping to wait for bytes changes nothing, complaints and parked handlers included. The one
      exception is a wrong greeting: every read judges it, and complains of it, again. */
  lemma {:induction false} ConverseResumes(k: Secrets, h: Armed, a: Data, b: Data)
    ensures var c := Converse(k, h, a);
            var d := Converse(k, c.armed, c.packet + b);
            Converse(k, h, a + b) ==
            if h == Hello && Judge(a) == Wrong then d else Then(c.wrote, c.complaints, d)
    decreases |a|, Height(h)
  {
    hide Handle, Height, Judge, Then, Stuck;
    if h == Hello && Judge(a) != Promising {
      VerdictStays(a, b);
      ThenNothing(Converse(k, Crashed(NoCommonVersion), a + b));
    } else if Active(h) && Expected(h) <= |a| && !Stuck(h) {
      var n := Expected(h);
      var r := Handle(k, h, a[..n]);
      assert (a + b)[..n] == a[..n] && (a + b)[n..] == a[n..] + b;
      if h == Hello {
        WholeGreeting(a, b);
        FirstHandlerMoves(k, a);
      }
      ConverseResumes(k, r.armed, a[n..], b);
      var c := Converse(k, r.armed, a[n..]);
      ThenTwice(r.wrote, r.complaints, c.wrote, c.complaints, Converse(k, c.armed, c.packet + b));
      ThenParts(r.wrote, r.complaints, c);
    } else {
      ThenNothing(Converse(k, h, a + b));
    }
  }

  lemma {:induction false} ThenParts(w: Data, x: seq<Complaint>, c: Conversation)
    ensures var d := Then(w, x, c);
            d.armed == c.armed && d.packet == c.packet && d.wrote == w + c.wrote && d.complaints == x + c.complaints
  {
  }

  lemma {:induction false} FirstHandlerMoves(k: Secrets, packet: Data)
    requires 12 <= |packet| && Judge(packet) == Promising
    ensures Handle(k, Hello, packet[..12]).armed != Hello
  {
  }

  /** What the client has written only ever grows. */
  lemma {:induction false} WritesGrow(k: Secrets, a: Data, b: Data)
    ensures After(k, a).wrote <= After(k, a + b).wrote
  {
    hide Converse;
    ConverseResumes(k, Hello, a, b);
    if Judge(a) == Wrong {
      WrongWritesNothing(k, a);
    }
  }

  lemma {:induction false} WrongWritesNothing(k: Secrets, a: Data)
    requires Judge(a) == Wrong
    ensures After(k, a) == Conversation(Hello, a, [], [BadGreeting])
  {
  }

  // ----- giving up -----

  lemma {:induction false} OneBlock(k: Secrets, h: Armed, block: Data, rest: Data)
    requires Active(h) && |block| == Expected(h) && !Stuck(h) && (h == Hello ==> Judge(block + rest) == Promising)
    ensures var r := Handle(k, h, block);
            Converse(k, h, block + rest) == Then(r.wrote, r.complaints, Converse(k, r.armed, rest))
  {
    hide Handle, Height, Judge, Then;
    assert (block + rest)[..|block|] == block && (block + rest)[|block|..] == rest;
  }

  /** A handler that gives up does not stop the client: it is called again with the next bytes, and
      may then do anything it does on its first call. It stays at the one complaint exactly if too
      few bytes follow. */
  lemma {:induction false} GivingUpStopsNothing(k: Secrets, h: Armed, block: Data, more: Data)
    requires Active(h) && |block| == Expected(h) && !Stuck(h) && h != Hello && Handle(k, h, block).armed == h
    ensures var complaints := Handle(k, h, block).complaints;
            && |complaints| == 1
            && Converse(k, h, block + more) == Then([], complaints, Converse(k, h, more))
            && (Converse(k, h, block + more) == Conversation(h, more, [], complaints) <==> |more| < |block|)
  {
    hide Handle, Then;
    OneBlock(k, h, block, more);
    var c := Converse(k, h, more);
    if |more| < |block| {
      ThenOnly(Handle(k, h, block).complaints, h, more);
    } else {
      PacketShrinks(k, h, more);
      ThenParts([], Handle(k, h, block).complaints, c);
    }
  }

  lemma {:induction false} ThenOnly(complaints: seq<Complaint>, h: Armed, packet: Data)
    ensures Then([], complaints, Conversation(h, packet, [], [])) == Conversation(h, packet, [], complaints)
  {
    assert complaints + [] == complaints;
  }

  /** The loop never puts bytes back. */
  lemma {:induction false} PacketShrinks(k: Secrets, h: Armed, packet: Data)
    ensures |Converse(k, h, packet).packet| <= |packet|
    ensures h != Hello && Active(h) && !Stuck(h) && 0 < Expected(h) <= |packet| ==>
              |Converse(k, h, packet).packet| < |packet|
    decreases |packet|, Height(h)
  {
    hide Handle, Judge, Height, Stuck;
    if !(h == Hello && Judge(packet) != Promising) && Active(h) && Expected(h) <= |packet| && !Stuck(h) {
      var n := Expected(h);
      PacketShrinks(k, Handle(k, h, packet[..n]).armed, packet[n..]);
    }
  }

  // ----- whether the loop ends -----

  /** The condition of the `while` loop. */
  predicate Guard(c: Conversation) {
    Active(c.armed) && Expected(c.armed) <= |c.packet|
  }

  /** One round of it: the armed handler is called on exactly its bytes. */
  function Round(k: Secrets, c: Conversation): Conversation
    requires Guard(c)
  {
    var n := Expected(c.armed);
    var r := Handle(k, c.armed, c.packet[..n]);
    Conversation(r.armed, c.packet[n..], c.wrote + r.wrote, c.complaints + r.complaints)
  }

  /** `n` rounds, or fewer if the condition fails first. */
  function Rounds(k: Secrets, c: Conversation, n: nat): Conversation
    decreases n
  {
    if n == 0 || !Guard(c) then c else Rounds(k, Round(k, c), n - 1)
  }

  ghost predicate LoopEnds(k: Secrets, c: Conversation) {
    exists n :: !Guard(Rounds(k, c, n))
  }

  /** Among these bytes the server announces a refusal or a failed login with an empty text. */
  predicate MeetsEmptyText(k: Secrets, h: Armed, packet: Data)
    decreases |packet|, Height(h)
  {
    && Active(h) && Expected(h) <= |packet| && !Stuck(h)
    && (((h.RefusalHead? || h.FailureHead?) && U32(packet[..4]) == 0)
        || MeetsEmptyText(k, Handle(k, h, packet[..Expected(h)]).armed, packet[Expected(h)..]))
  }

  lemma {:induction false} StuckExactly(k: Secrets, h: Armed, packet: Data)
    requires h != Hello
    ensures Stuck(Converse(k, h, packet).armed) <==> Stuck(h) || MeetsEmptyText(k, h, packet)
    decreases |packet|, Height(h)
  {
    hide Height, Then;
    if Active(h) && Expected(h) <= |packet| && !Stuck(h) {
      var n := Expected(h);
      var r := Handle(k, h, packet[..n]);
      StuckNext(k, h, packet[..n]);
      hide Handle, Stuck;
      StuckExactly(k, r.armed, packet[n..]);
      ThenParts(r.wrote, r.complaints, Converse(k, r.armed, packet[n..]));
      assert packet[..n][..n] == packet[..n];
      if Stuck(r.armed) {
        StuckMeetsNothing(k, r.armed, packet[n..]);
      }
    }
  }

  lemma {:induction false} StuckMeetsNothing(k: Secrets, h: Armed, packet: Data)
    requires Stuck(h)
    ensures !MeetsEmptyText(k, h, packet)
  {
  }

  lemma {:induction false} StuckNext(k: Secrets, h: Armed, block: Data)
    requires Active(h) && |block| == Expected(h) && !Stuck(h)
    ensures Stuck(Handle(k, h, block).armed) <==> (h.RefusalHead? || h.FailureHead?) && U32(block) == 0
  {
    hide U32, Negotiate, Preferred;
  }

  /** Calling a stuck handler leaves everything as it was but for one more complaint. */
  lemma {:induction false} StuckRounds(k: Secrets, c: Conversation, n: nat)
    requires Stuck(c.armed)
    ensures var d := Rounds(k, c, n);
            Guard(d) && d.armed == c.armed && d.packet == c.packet && |d.complaints| == |c.complaints| + n
    decreases n
  {
    if n > 0 {
      assert c.packet[..0] == [] && c.packet[0..] == c.packet;
      StuckRounds(k, Round(k, c), n - 1);
    }
  }

  /** `Converse` is where the loop comes to after some number of rounds. */
  lemma {:induction false} RoundsConverse(k: Secrets, c: Conversation) returns (n: nat)
    requires c.armed != Hello
    ensures Rounds(k, c, n) == Then(c.wrote, c.complaints, Converse(k, c.armed, c.packet))
    ensures !Guard(Rounds(k, c, n)) || Stuck(Rounds(k, c, n).armed)
    decreases |c.packet|, Height(c.armed)
  {
    hide Handle, Height, Stuck, Then;
    if Guard(c) && !Stuck(c.armed) {
      var r, d := Handle(k, c.armed, c.packet[..Expected(c.armed)]), Round(k, c);
      var m := RoundsConverse(k, d);
      n := m + 1;
      ThenTwice(c.wrote, c.complaints, r.wrote, r.complaints, Converse(k, d.armed, d.packet));
    } else {
      n := 0;
      ThenAtOnce(c);
    }
  }

  lemma {:induction false} ThenAtOnce(c: Conversation)
    ensures Then(c.wrote, c.complaints, Conversation(c.armed, c.packet, [], [])) == c
  {
  }

  lemma {:induction false} RoundsAdd(k: Secrets, c: Conversation, m: nat, n: nat)
    ensures Rounds(k, c, m + n) == Rounds(k, Rounds(k, c, m), n)
    decreases m
  {
    hide Round, Guard;
    if m > 0 && Guard(c) {
      RoundsAdd(k, Round(k, c), m - 1, n);
    }
  }

  /** Once the condition has failed, further rounds change nothing. */
  lemma {:induction false} EndedStays(k: Secrets, c: Conversation, m: nat, n: nat)
    requires m <= n && !Guard(Rounds(k, c, m))
    ensures Rounds(k, c, n) == Rounds(k, c, m)
  {
    RoundsAdd(k, c, m, n - m);
  }

  /** The receive loop ends if and only if it meets no refusal and no failed login with an empty text;
      and where it ends is `Converse`. */
  lemma {:induction false} LoopEndsExactly(k: Secrets, h: Armed, packet: Data)
    requires h != Hello && !Stuck(h)
    ensures LoopEnds(k, Conversation(h, packet, [], [])) <==> !MeetsEmptyText(k, h, packet)
    ensures !MeetsEmptyText(k, h, packet) ==>
              exists n :: Rounds(k, Conversation(h, packet, [], []), n) == Converse(k, h, packet)
  {
    hide Rounds, Converse, MeetsEmptyText, Stuck, Guard;
    var c := Conversation(h, packet, [], []);
    var n := RoundsConverse(k, c);
    ThenNothing(Converse(k, h, packet));
    StuckExactly(k, h, packet);
    if MeetsEmptyText(k, h, packet) {
      forall m: nat ensures Guard(Rounds(k, c, m)) {
        if m < n {
          if !Guard(Rounds(k, c, m)) {
            EndedStays(k, c, m, n);
            StuckRounds(k, Rounds(k, c, n), 0);
            StuckIsReady(Rounds(k, c, n));
          }
        } else {
          RoundsAdd(k, c, n, m - n);
          StuckRounds(k, Rounds(k, c, n), m - n);
        }
      }
    } else {
      assert !Guard(Rounds(k, c, n));
    }
  }

  lemma {:induction false} StuckIsReady(c: Conversation)
    requires Stuck(c.armed)
    ensures Guard(c)
  {
  }

  /** So from the greeting on, for everything ever received. */
  lemma {:induction false} HangsExactly(k: Secrets, heard: Data)
    ensures Stuck(After(k, heard).armed) <==>
            && 12 <= |heard| && Negotiate(heard[..12]).Some?
            && MeetsEmptyText(k, Handle(k, Hello, heard[..12]).armed, heard[12..])
  {
    hide Handle, Then, Negotiate, MeetsEmptyText;
    if 12 <= |heard| && Judge(heard) == Promising {
      var r := Handle(k, Hello, heard[..12]);
      FirstHandlerMoves(k, heard);
      StuckExactly(k, r.armed, heard[12..]);
      ThenParts(r.wrote, r.complaints, Converse(k, r.armed, heard[12..]));
      assert !Stuck(r.armed) by { StuckNext(k, Hello, heard[..12]); }
    } else if 12 <= |heard| {
      NotNegotiable(heard);
    }
  }

  lemma {:induction false} NotNegotiable(packet: Data)
    requires 12 <= |packet|
    ensures Judge(packet) == Promising <==> Negotiate(packet[..12]).Some?
  {
  }

  // ----- refusals -----

  /** What a server sends to refuse: no types, or type 0. */
  function Refusal(v: Version): Data {
    if v.AtLeast(3, 7) then [0] else PutU32(0)
  }

  /** A server that refuses, at any version: whatever follows, nothing but the version reply is
      written, and the client does with its text and what comes after what `RefusalText` does. */
  lemma {:induction false} RefusalIsHeard(k: Secrets, greeting: Data, v: Version, length: nat, more: Data)
    requires |greeting| == 12 && Negotiate(greeting) == Some(v) && length < 0x1_0000_0000
    ensures After(k, greeting + (Refusal(v) + (PutU32(length) + more))) ==
            Then(Reply(v), [], Converse(k, RefusalText(length), more))
  {
    hide Negotiate, StartsGreeting, Converse, Then;
    var h := if v.AtLeast(3, 7) then NumberSecurityTypes(v) else AuthScheme(v);
    var rest := Refusal(v) + (PutU32(length) + more);
    OneBlock(k, RefusalHead, PutU32(length), more);
    OneBlock(k, h, Refusal(v), PutU32(length) + more);
    assert (greeting + rest)[..12] == greeting;
    AcceptedGreeting(greeting + rest, |greeting + rest|);
    assert (greeting + rest)[..|greeting + rest|] == greeting + rest;
    OneBlock(k, Hello, greeting, rest);
    ThenNothing(Converse(k, RefusalText(length), more));
  }

  /** The refusal is quoted in full, once, and the client is left waiting, if and only if its text is
      not empty and fewer bytes than it has follow. */
  lemma {:induction false} RefusalIsReported(k: Secrets, greeting: Data, v: Version, text: Data, more: Data)
    requires |greeting| == 12 && Negotiate(greeting) == Some(v) && |text| < 0x1_0000_0000
    ensures var c := After(k, greeting + (Refusal(v) + (PutU32(|text|) + (text + more))));
            && c.wrote == Reply(v)
            && (c == Conversation(RefusalText(|text|), more, Reply(v), [TurnedAway(text)]) <==>
                0 < |text| && |more| < |text|)
  {
    hide Negotiate, Converse, Then;
    var h := RefusalText(|text|);
    RefusalIsHeard(k, greeting, v, |text|, text + more);
    var c := Converse(k, h, text + more);
    ThenParts(Reply(v), [], c);
    SilentTexts(k, h, text + more);
    assert Reply(v) + [] == Reply(v) && [] + c.complaints == c.complaints;
    if text == [] {
      StuckStays(k, h, text + more);
    } else {
      GivingUpStopsNothing(k, h, text, more);
    }
  }

  /** Reading and re-reading a text writes nothing. */
  lemma {:induction false} SilentTexts(k: Secrets, h: Armed, packet: Data)
    requires h.RefusalText? || h.FailureText?
    ensures Converse(k, h, packet).wrote == [] && Converse(k, h, packet).armed == h
    decreases |packet|
  {
    if Expected(h) <= |packet| && !Stuck(h) {
      SilentTexts(k, h, packet[Expected(h)..]);
    }
  }

  lemma {:induction false} StuckStays(k: Secrets, h: Armed, packet: Data)
    requires Stuck(h)
    ensures Converse(k, h, packet) == Conversation(h, packet, [], [])
  {
  }

  /** With an empty text the loop never ends: every round of it complains once more. */
  lemma {:induction false} EmptyRefusalHangs(k: Secrets, v: Version, more: Data, n: nat)
    ensures var h := if v.AtLeast(3, 7) then NumberSecurityTypes(v) else AuthScheme(v);
            var c := Conversation(h, Refusal(v) + (PutU32(0) + more), [], []);
            Guard(Rounds(k, c, n + 2)) && |Rounds(k, c, n + 2).complaints| == n && !LoopEnds(k, c)
  {
    hide Rounds, Guard, Converse;
    var h := if v.AtLeast(3, 7) then NumberSecurityTypes(v) else AuthScheme(v);
    var packet := Refusal(v) + (PutU32(0) + more);
    var c := Conversation(h, packet, [], []);
    RefusalRounds(k, v, more);
    RoundsAdd(k, c, 2, n);
    StuckRounds(k, Rounds(k, c, 2), n);
    MeetsEmptyRefusal(k, v, more);
    LoopEndsExactly(k, h, packet);
  }

  lemma {:induction false} RefusalRounds(k: Secrets, v: Version, more: Data)
    ensures var h := if v.AtLeast(3, 7) then NumberSecurityTypes(v) else AuthScheme(v);
            Rounds(k, Conversation(h, Refusal(v) + (PutU32(0) + more), [], []), 2) ==
            Conversation(RefusalText(0), more, [], [])
  {
    hide PutU32, U32;
    var h := if v.AtLeast(3, 7) then NumberSecurityTypes(v) else AuthScheme(v);
    var rest := PutU32(0) + more;
    OneRound(k, h, Refusal(v), rest);
    OneRound(k, RefusalHead, PutU32(0), more);
    hide Round, Guard, Handle;
    var c, d := Conversation(h, Refusal(v) + rest, [], []), Conversation(RefusalHead, rest, [], []);
    assert Rounds(k, c, 2) == Rounds(k, d, 1) == Rounds(k, Round(k, d), 0);
  }

  lemma {:induction false} OneRound(k: Secrets, h: Armed, block: Data, rest: Data)
    requires Active(h) && |block| == Expected(h) && Handle(k, h, block).wrote == []
    ensures var c := Conversation(h, block + rest, [], []);
            Guard(c) && Round(k, c) == Conversation(Handle(k, h, block).armed, rest, [], Handle(k, h, block).complaints)
  {
    hide Handle;
    assert (block + rest)[..|block|] == block && (block + rest)[|block|..] == rest;
  }

  lemma {:induction false} MeetsEmptyRefusal(k: Secrets, v: Version, more: Data)
    ensures var h := if v.AtLeast(3, 7) then NumberSecurityTypes(v) else AuthScheme(v);
            MeetsEmptyText(k, h, Refusal(v) + (PutU32(0) + more))
  {
    var rest := PutU32(0) + more;
    assert (Refusal(v) + rest)[..|Refusal(v)|] == Refusal(v) && (Refusal(v) + rest)[|Refusal(v)|..] == rest;
    assert rest[..4] == PutU32(0);
    assert MeetsEmptyText(k, RefusalHead, rest);
  }

  /** A login that is turned down, from 3.8 on: as a refusal. */
  lemma {:induction false} LoginFailureIsReported(k: Secrets, v: Version, code: nat, text: Data, more: Data)
    requires code in {1, 2} && |text| < 0x1_0000_0000 && v.AtLeast(3, 8)
    ensures var c := Converse(k, AuthResult(v), PutU32(code) + (PutU32(|text|) + (text + more)));
            && c.wrote == []
            && (c == Conversation(FailureText(|text|), more, [], [LoginRefused(text)]) <==>
                0 < |text| && |more| < |text|)
  {
    hide Converse, Then;
    var h := FailureText(|text|);
    var c := Converse(k, h, text + more);
    OneBlock(k, FailureHead, PutU32(|text|), text + more);
    OneBlock(k, AuthResult(v), PutU32(code), PutU32(|text|) + (text + more));
    ThenNothing(c);
    SilentTexts(k, h, text + more);
    if text == [] {
      StuckStays(k, h, text + more);
    } else {
      GivingUpStopsNothing(k, h, text, more);
    }
  }

  /** Before 3.8 only the code is sent, and whatever comes next is read as another result: one that
      says 0 makes the client write its shared flag and go on. */
  lemma {:induction false} EarlyLoginFailure(k: Secrets, v: Version, code: nat, more: Data)
    requires code in {1, 2} && !v.AtLeast(3, 8)
    ensures var why := if code == 1 then WrongPassword else TooManyTries;
            && Converse(k, AuthResult(v), PutU32(code) + more) == Then([], [why], Converse(k, AuthResult(v), more))
            && (Converse(k, AuthResult(v), PutU32(code) + more) == Conversation(AuthResult(v), more, [], [why]) <==>
                |more| < 4)
    ensures 4 <= |more| && U32(more[..4]) == 0 ==>
              [if k.shared then 1 else 0] <= Converse(k, AuthResult(v), PutU32(code) + more).wrote
  {
    hide Converse, Then;
    GivingUpStopsNothing(k, AuthResult(v), PutU32(code), more);
    if 4 <= |more| && U32(more[..4]) == 0 {
      SplitAt(more, 4);
      OneBlock(k, AuthResult(v), more[..4], more[4..]);
      var c := Converse(k, AuthResult(v), more);
      ThenParts(Handle(k, AuthResult(v), more[..4]).wrote, [], Converse(k, Init, more[4..]));
      ThenParts([], [if code == 1 then WrongPassword else TooManyTries], c);
      assert [] + c.wrote == c.wrote;
    }
  }

  /** A client that knows none of the offered types reads the next bytes as another offer. */
  lemma {:induction false} UnknownOfferIsReread(k: Secrets, v: Version, types: Data, more: Data)
    requires 0 < |types| && Preferred(types).None?
    ensures var h := SecurityTypes(v, |types|);
            && Converse(k, h, types + more) == Then([], [UnknownTypes], Converse(k, h, more))
            && (Converse(k, h, types + more) == Conversation(h, more, [], [UnknownTypes]) <==> |more| < |types|)
  {
    hide Converse, Then;
    GivingUpStopsNothing(k, SecurityTypes(v, |types|), types, more);
  }

  /** An unknown scheme before 3.7, and an unknown result at any version: likewise. */
  lemma {:induction false} UnknownSchemeIsReread(k: Secrets, v: Version, scheme: nat, more: Data)
    requires 2 < scheme < 0x1_0000_0000
    ensures Converse(k, AuthScheme(v), PutU32(scheme) + more) ==
            Then([], [UnknownScheme], Converse(k, AuthScheme(v), more))
  {
    hide Converse, Then;
    GivingUpStopsNothing(k, AuthScheme(v), PutU32(scheme), more);
  }

  lemma {:induction false} UnknownResultIsReread(k: Secrets, v: Version, result: nat, more: Data)
    requires 2 < result < 0x1_0000_0000
    ensures Converse(k, AuthResult(v), PutU32(result) + more) ==
            Then([], [UnknownResult], Converse(k, AuthResult(v), more))
  {
    hide Converse, Then;
    GivingUpStopsNothing(k, AuthResult(v), PutU32(result), more);
  }

  /** Without a password the challenge is met with a complaint and silence, and the result awaited. */
  lemma {:induction false} ChallengeWithoutPassword(k: Secrets, v: Version, challenge: Data, more: Data)
    requires |challenge| == 16 && k.password.None?
    ensures Converse(k, VncChallenge(v), challenge + more) ==
            Then([], [NoPassword], Converse(k, AuthResult(v), more))
  {
    hide Converse, Then;
    OneBlock(k, VncChallenge(v), challenge, more);
  }

  /** A handler raises exactly for a version line below 3.3, a password whose first eight characters
      are not ASCII, and credentials that are not whole AES blocks; it has then written nothing. */
  lemma {:induction false} CrashesExactly(k: Secrets, h: Armed, block: Data)
    requires Active(h) && |block| == Expected(h)
    ensures var r := Handle(k, h, block);
            && (r.armed.Crashed? <==>
                || (h == Hello && IsGreeting(block) &&
                    !Version(ThreeDigits(block[4..7]), ThreeDigits(block[8..11])).AtLeast(3, 3))
                || (h.VncChallenge? && k.password.Some? && !Ascii(VncKey(k.password.value)))
                || (h.DHCert? && |ArdPlaintext(k.username, k.ArdPassword())| % AES_BLOCK != 0))
            && (r.armed.Crashed? ==> r.wrote == [] && r.complaints == [])
  {
    hide U32, U16, ArdPlaintext, Preferred, ThreeDigits, StartsGreeting, Ascii, VncKey;
  }

  // ----- the source's object -----

  class HandshakeClient {
    const secrets: Secrets
    var armed: Armed
    var packet: Data
    /** What the transport has been given, and why it has been told to close. */
    var wrote: Data
    var complaints: seq<Complaint>
    ghost var heard: Data

    ghost predicate Valid()
      reads this
    {
      var c := After(secrets, heard);
      && armed == c.armed && packet == c.packet && wrote == c.wrote
      && (Judge(heard) != Wrong ==> complaints == c.complaints)
    }

    constructor (k: Secrets)
      ensures Valid() && secrets == k && heard == [] && wrote == [] && armed == Hello && complaints == []
    {
      secrets := k;
      armed, packet, wrote, complaints, heard := Hello, [], [], [], [];
    }

    /** `dataReceived`, `_handleInitial` and the loop of `_handleExpected`, which also runs zero-length
        handlers. `hung` stands for a call that does not return. */
    method DataReceived(data: Data) returns (hung: bool)
      requires Valid() && !Stuck(armed)
      modifies this
      ensures Valid() && heard == old(heard) + data
      ensures old(wrote) <= wrote && old(complaints) <= complaints
      ensures Judge(heard) == Wrong ==> complaints == old(complaints) + [BadGreeting]
      ensures hung <==> Stuck(armed)
      ensures old(armed) != Hello ==>
                (hung <==> !LoopEnds(secrets, Conversation(old(armed), old(packet) + data, [], [])))
    {
      hide Handle, Height, Judge, Stuck, Then, LoopEnds, MeetsEmptyText;
      if armed != Hello {
        LoopEndsExactly(secrets, armed, packet + data);
        StuckExactly(secrets, armed, packet + data);
      }
      ConverseResumes(secrets, Hello, heard, data);
      WritesGrow(secrets, heard, data);
      ghost var before := After(secrets, heard);
      ghost var more := Converse(secrets, armed, packet + data);
      ThenParts(before.wrote, before.complaints, more);
      Verdicts(secrets, heard, data);
      heard := heard + data;
      packet := packet + data;
      if armed == Hello && Judge(packet) == Wrong {
        complaints := complaints + [BadGreeting];
        return Stuck(armed);
      }
      if armed == Hello && Judge(packet) == TooOld {
        armed := Crashed(NoCommonVersion);
      }
      ghost var said, whole := complaints, Then(wrote, complaints, more);
      while Active(armed) && Expected(armed) <= |packet| && !Stuck(armed)
        invariant armed == Hello ==> Judge(packet) == Promising
        invariant heard == old(heard) + data && said <= complaints
        invariant whole == Then(wrote, complaints, Converse(secrets, armed, packet))
        decreases |packet|, Height(armed)
      {
        var n := Expected(armed);
        var r := Handle(secrets, armed, packet[..n]);
        ghost var c := Converse(secrets, r.armed, packet[n..]);
        ThenTwice(wrote, complaints, r.wrote, r.complaints, c);
        if armed == Hello {
          FirstHandlerMoves(secrets, packet);
        }
        armed, packet, wrote, complaints := r.armed, packet[n..], wrote + r.wrote, complaints + r.complaints;
      }
      ThenAtOnce(Conversation(armed, packet, wrote, complaints));
      return Stuck(armed);
    }
  }

  lemma {:induction false} Verdicts(k: Secrets, heard: Data, data: Data)
    ensures var c := After(k, heard);
            && (Judge(heard) == Wrong ==> c.armed == Hello && c.packet == heard && Judge(heard + data) == Wrong)
            && (Judge(heard) != Wrong && c.armed == Hello ==> c.packet == heard && c.wrote == [] && c.complaints == [])
            && (Judge(heard + data) == Wrong ==> c.armed == Hello && c.packet == heard)
  {
    hide Handle, Then;
    if Judge(heard) == Wrong {
      VerdictStays(heard, data);
    } else if Judge(heard) == TooOld {
      VerdictStays(heard, data);
    } else if 12 <= |heard| {
      WholeGreeting(heard, data);
      FirstHandlerMoves(k, heard);
      NeverHello(k, Handle(k, Hello, heard[..12]).armed, heard[12..]);
      ThenParts(Handle(k, Hello, heard[..12]).wrote, Handle(k, Hello, heard[..12]).complaints,
                Converse(k, Handle(k, Hello, heard[..12]).armed, heard[12..]));
    }
  }

  /** The greeting is never awaited again. */
  lemma {:induction false} NeverHello(k: Secrets, h: Armed, packet: Data)
    requires h != Hello
    ensures Converse(k, h, packet).armed != Hello
    decreases |packet|, Height(h)
  {
    hide Handle, Height, Stuck, Then;
    if Active(h) && Expected(h) <= |packet| && !Stuck(h) {
      var r := Handle(k, h, packet[..Expected(h)]);
      NeverHello(k, r.armed, packet[Expected(h)..]);
      ThenParts(r.wrote, r.complaints, Converse(k, r.armed, packet[Expected(h)..]));
    }
  }
}
