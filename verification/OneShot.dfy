/**
  The one-shot session claim of `VNCLoggingServerProxy` and its factory
  (vncdotool/loggingproxy.py): taken on accept, released by a connection that carried no
  bytes, and never released by one it refused.
 */
module OneShot {

  /** A connection as the factory has seen it. `session` records that it ended having carried bytes. */
  datatype Conn = Conn(live: bool, refused: bool, tookSession: bool, sawBytes: bool, session: bool)

  datatype Claim = Claim(taken: bool, finished: nat, conns: map<nat, Conn>)

  const Idle := Claim(false, 0, map[])

  /** Bytes are a non-empty read in either direction; each connection has its own number. */
  datatype Event = Connect(id: nat) | Bytes(id: nat) | Close(id: nat)

  /** Connections are new when they connect and known afterwards; they close once. */
  predicate Possible(s: Claim, e: Event) {
    match e
    case Connect(id) => id !in s.conns
    case Bytes(id) => id in s.conns
    case Close(id) => id in s.conns && s.conns[id].live
  }

  /** One callback of a connection, under `--one-shot` or not. */
  function Apply(oneShot: bool, s: Claim, e: Event): Claim
    requires Possible(s, e)
  {
    match e
    case Connect(id) =>
      if oneShot && s.taken then s.(conns := s.conns[id := Conn(true, true, false, false, false)])
      else s.(taken := s.taken || oneShot, conns := s.conns[id := Conn(true, false, oneShot, false, false)])
    case Bytes(id) =>
      var c := s.conns[id];
      if c.refused then s else s.(conns := s.conns[id := c.(sawBytes := true)])
    case Close(id) =>
      var c := s.conns[id];
      if c.refused then s.(conns := s.conns[id := c.(live := false)])
      else if c.sawBytes then
        Claim(s.taken, if oneShot then s.finished + 1 else s.finished,
              s.conns[id := c.(live := false, session := true)])
      else
        s.(taken := if c.tookSession then false else s.taken, conns := s.conns[id := c.(live := false)])
  }

  predicate AllPossible(oneShot: bool, s: Claim, events: seq<Event>)
    decreases |events|
  {
    events != [] ==>
      Possible(s, events[0]) && AllPossible(oneShot, Apply(oneShot, s, events[0]), events[1..])
  }

  function Run(oneShot: bool, s: Claim, events: seq<Event>): Claim
    requires AllPossible(oneShot, s, events)
    decreases |events|
  {
    if events == [] then s else Run(oneShot, Apply(oneShot, s, events[0]), events[1..])
  }

  predicate Holder(s: Claim, id: nat) {
    id in s.conns && s.conns[id].live && !s.conns[id].refused
  }

  predicate Session(s: Claim, id: nat) {
    id in s.conns && s.conns[id].session
  }

  /** At most one connection is being served or has been a session. */
  ghost predicate Exclusive(s: Claim) {
    forall i, j :: (Holder(s, i) || Session(s, i)) && (Holder(s, j) || Session(s, j)) ==> i == j
  }

  /** The claim is taken exactly while a connection is served or after a session has ended. */
  ghost predicate Consistent(s: Claim) {
    && Exclusive(s)
    && (s.taken <==> exists i :: Holder(s, i) || Session(s, i))
    && (s.finished == if exists i :: Session(s, i) then 1 else 0)
    && (forall i :: Holder(s, i) ==> s.conns[i].tookSession && !s.conns[i].session)
    && (forall i :: Session(s, i) ==> !s.conns[i].live)
  }

  lemma {:induction false} ConnectKeeps(s: Claim, id: nat)
    requires Consistent(s) && Possible(s, Connect(id))
    ensures Consistent(Apply(true, s, Connect(id)))
  {
    var t := Apply(true, s, Connect(id));
    forall i | i != id ensures (Holder(t, i) <==> Holder(s, i)) && (Session(t, i) <==> Session(s, i)) {
    }
    assert Holder(t, id) <==> !s.taken;
    assert !Session(t, id);
    if s.taken {
      var k :| Holder(s, k) || Session(s, k);
      assert Holder(t, k) || Session(t, k);
    }
    assert (exists i :: Session(t, i)) ==> exists i :: Session(s, i);
    assert (exists i :: Session(s, i)) ==> exists i :: Session(t, i) by {
      if exists i :: Session(s, i) {
        var k :| Session(s, k);
        assert Session(t, k);
      }
    }
  }

  lemma {:induction false} BytesKeep(s: Claim, id: nat)
    requires Consistent(s) && Possible(s, Bytes(id))
    ensures Consistent(Apply(true, s, Bytes(id)))
  {
    var t := Apply(true, s, Bytes(id));
    forall i ensures (Holder(t, i) <==> Holder(s, i)) && (Session(t, i) <==> Session(s, i)) {
    }
  }

  lemma {:induction false} CloseKeeps(s: Claim, id: nat)
    requires Consistent(s) && Possible(s, Close(id))
    ensures Consistent(Apply(true, s, Close(id)))
  {
    var t := Apply(true, s, Close(id));
    forall i | i != id ensures (Holder(t, i) <==> Holder(s, i)) && (Session(t, i) <==> Session(s, i)) {
    }
    assert !Holder(t, id);
    if s.conns[id].refused {
      assert Session(t, id) <==> Session(s, id);
      forall i ensures (Holder(t, i) <==> Holder(s, i)) && (Session(t, i) <==> Session(s, i)) {
      }
    } else {
      assert Holder(s, id) && !Session(s, id);
      assert Session(t, id) <==> s.conns[id].sawBytes;
      assert forall i :: i != id ==> !Holder(s, i) && !Session(s, i);
    }
  }

  /** Over every interleaving of connects, bytes and closes on any number of connections: at most
      one connection is served, the claim holds exactly while one is or once a session has ended,
      and the run is told to finish at most once, when the one session ends. */
  lemma {:induction false} ClaimIsExclusive(s: Claim, events: seq<Event>)
    requires Consistent(s) && AllPossible(true, s, events)
    ensures Consistent(Run(true, s, events))
    decreases |events|
  {
    hide Consistent, Apply;
    if events != [] {
      match events[0] {
        case Connect(id) => ConnectKeeps(s, id);
        case Bytes(id) => BytesKeep(s, id);
        case Close(id) => CloseKeeps(s, id);
      }
      ClaimIsExclusive(Apply(true, s, events[0]), events[1..]);
    }
  }

  lemma {:induction false} ClaimFromTheStart(events: seq<Event>)
    requires AllPossible(true, Idle, events)
    ensures var s := Run(true, Idle, events);
            Consistent(s) && s.finished <= 1
  {
    hide Run, AllPossible, Apply;
    ClaimIsExclusive(Idle, events);
  }

  /** Nothing a refused connection does, nor its being refused, touches the claim, the count or
      any other connection. */
  lemma {:induction false} RefusedChangesNothing(s: Claim, e: Event)
    requires Possible(s, e)
    requires if e.Connect? then s.taken else s.conns[e.id].refused
    ensures var t := Apply(true, s, e);
            && t.taken == s.taken && t.finished == s.finished
            && (e.Connect? ==> t.conns[e.id].refused)
            && t.conns - {e.id} == s.conns - {e.id}
  {
  }

  // ----- whole runs -----

  lemma {:induction false} RunSnoc(oneShot: bool, s: Claim, events: seq<Event>, e: Event)
    requires AllPossible(oneShot, s, events + [e])
    ensures AllPossible(oneShot, s, events) && Possible(Run(oneShot, s, events), e)
    ensures Run(oneShot, s, events + [e]) == Apply(oneShot, Run(oneShot, s, events), e)
    decreases |events|
  {
    hide Apply, Possible;
    var all := events + [e];
    if events == [] {
      assert all[0] == e && all[1..] == [];
    } else {
      assert all[0] == events[0] && all[1..] == events[1..] + [e];
      RunSnoc(oneShot, Apply(oneShot, s, events[0]), events[1..], e);
    }
  }

  lemma {:induction false} RunSplit(oneShot: bool, s: Claim, a: seq<Event>, b: seq<Event>)
    requires AllPossible(oneShot, s, a + b)
    ensures AllPossible(oneShot, s, a) && AllPossible(oneShot, Run(oneShot, s, a), b)
    ensures Run(oneShot, s, a + b) == Run(oneShot, Run(oneShot, s, a), b)
    decreases |a|
  {
    hide Apply, Possible;
    if a == [] {
      assert a + b == b;
    } else {
      assert (a + b)[0] == a[0] && (a + b)[1..] == a[1..] + b;
      RunSplit(oneShot, Apply(oneShot, s, a[0]), a[1..], b);
    }
  }

  /** Whether a connection was refused is settled when it connects. */
  lemma {:induction false} RefusedStays(oneShot: bool, s: Claim, events: seq<Event>, id: nat)
    requires AllPossible(oneShot, s, events) && id in s.conns
    ensures id in Run(oneShot, s, events).conns
    ensures Run(oneShot, s, events).conns[id].refused == s.conns[id].refused
    decreases |events|
  {
    if events != [] {
      RefusedStays(oneShot, Apply(oneShot, s, events[0]), events[1..], id);
    }
  }

  /** In a one-shot run a connection is refused if and only if, when it connected, another was being
      served or a session had ended; whatever comes before and after. */
  lemma {:induction false} RefusedExactly(before: seq<Event>, id: nat, after: seq<Event>)
    requires AllPossible(true, Idle, before + ([Connect(id)] + after))
    ensures AllPossible(true, Idle, before)
    ensures var s, t := Run(true, Idle, before), Run(true, Idle, before + ([Connect(id)] + after));
            id in t.conns && (t.conns[id].refused <==> exists i :: Holder(s, i) || Session(s, i))
  {
    hide Consistent, Run;
    RunSplit(true, Idle, before, [Connect(id)] + after);
    ClaimFromTheStart(before);
    var s := Run(true, Idle, before);
    ConnectTold(true, s, id, after);
    TakenExactly(s);
  }

  lemma {:induction false} TakenExactly(s: Claim)
    requires Consistent(s)
    ensures s.taken <==> exists i :: Holder(s, i) || Session(s, i)
  {
  }

  lemma {:induction false} ConnectTold(oneShot: bool, s: Claim, id: nat, after: seq<Event>)
    requires AllPossible(oneShot, s, [Connect(id)] + after)
    ensures var t := Run(oneShot, s, [Connect(id)] + after);
            id in t.conns && (t.conns[id].refused <==> oneShot && s.taken)
  {
    assert ([Connect(id)] + after)[1..] == after;
    RefusedStays(oneShot, Apply(oneShot, s, Connect(id)), after, id);
  }

  /** The first connection to an idle proxy is served. */
  lemma {:induction false} FirstIsServed(id: nat, after: seq<Event>)
    requires AllPossible(true, Idle, [Connect(id)] + after)
    ensures id in Run(true, Idle, [Connect(id)] + after).conns
    ensures !Run(true, Idle, [Connect(id)] + after).conns[id].refused
  {
    ConnectTold(true, Idle, id, after);
  }

  /** Without `--one-shot`, over every run: nobody is refused, nothing is claimed, nothing finishes. */
  lemma {:induction false} EveryoneIsServed(s: Claim, events: seq<Event>)
    requires AllPossible(false, s, events)
    requires !s.taken && s.finished == 0 && forall i :: i in s.conns ==> !s.conns[i].refused && !s.conns[i].tookSession
    ensures var t := Run(false, s, events);
            !t.taken && t.finished == 0 && forall i :: i in t.conns ==> !t.conns[i].refused && !t.conns[i].tookSession
    decreases |events|
  {
    if events != [] {
      EveryoneIsServed(Apply(false, s, events[0]), events[1..]);
    }
  }

  /** Bytes were seen on a connection, and it closed after them. */
  ghost predicate BytesThenClose(events: seq<Event>, id: nat) {
    exists b, c :: 0 <= b < c < |events| && events[b] == Bytes(id) && events[c] == Close(id)
  }

  /** What the factory knows of a connection is what happened on it. */
  ghost predicate Recalls(s: Claim, events: seq<Event>, id: nat) {
    && (id in s.conns <==> Connect(id) in events)
    && (id !in s.conns ==> Bytes(id) !in events && Close(id) !in events && !BytesThenClose(events, id))
    && (id in s.conns ==>
          && (s.conns[id].live <==> Close(id) !in events)
          && (!s.conns[id].refused ==> (s.conns[id].sawBytes <==> Bytes(id) in events))
          && (!s.conns[id].refused ==> (s.conns[id].session <==> BytesThenClose(events, id)))
          && (s.conns[id].refused ==> !s.conns[id].sawBytes && !s.conns[id].session))
  }

  /** A connection is a session exactly if it was served and closed after carrying bytes; over every
      run, one-shot or not. */
  lemma {:induction false} SessionsAreRecalled(oneShot: bool, events: seq<Event>, id: nat)
    requires AllPossible(oneShot, Idle, events)
    ensures Recalls(Run(oneShot, Idle, events), events, id)
    decreases |events|
  {
    hide Run, AllPossible, Apply, Recalls;
    if events == [] {
      NothingToRecall(oneShot, id);
    } else {
      var n := |events| - 1;
      var before, e := events[..n], events[n];
      assert events == before + [e];
      RunSnoc(oneShot, Idle, before, e);
      SessionsAreRecalled(oneShot, before, id);
      RecallsOne(oneShot, Run(oneShot, Idle, before), before, e, id);
    }
  }

  lemma {:induction false} NothingToRecall(oneShot: bool, id: nat)
    ensures Recalls(Run(oneShot, Idle, []), [], id)
  {
  }

  lemma {:induction false} RecallsOne(oneShot: bool, s: Claim, events: seq<Event>, e: Event, id: nat)
    requires Recalls(s, events, id) && Possible(s, e)
    ensures Recalls(Apply(oneShot, s, e), events + [e], id)
  {
    hide BytesThenClose;
    var all := events + [e];
    assert forall x :: x in all <==> x in events || x == e;
    BytesThenCloseSnoc(events, e, id);
  }

  lemma {:induction false} BytesThenCloseSnoc(events: seq<Event>, e: Event, id: nat)
    ensures BytesThenClose(events + [e], id) <==> BytesThenClose(events, id) || (e == Close(id) && Bytes(id) in events)
  {
    var all := events + [e];
    if BytesThenClose(all, id) {
      var b, c :| 0 <= b < c < |all| && all[b] == Bytes(id) && all[c] == Close(id);
      assert b < |events| && all[b] == events[b];
      if c < |events| {
        assert events[c] == Close(id);
      }
    }
    if BytesThenClose(events, id) {
      var b, c :| 0 <= b < c < |events| && events[b] == Bytes(id) && events[c] == Close(id);
      assert all[b] == Bytes(id) && all[c] == Close(id);
    }
    if e == Close(id) && Bytes(id) in events {
      var b :| 0 <= b < |events| && events[b] == Bytes(id);
      assert all[b] == Bytes(id) && all[|events|] == Close(id);
    }
  }

  // ----- the source's objects -----

  class VNCLoggingServerFactory {
    const oneShot: bool
    var sessionTaken: bool
    /** Calls of sessionFinished. */
    var finished: nat
    var connections: map<nat, Conn>

    function Value(): Claim
      reads this
    {
      Claim(sessionTaken, finished, connections)
    }

    constructor (once: bool)
      ensures oneShot == once && Value() == Idle
    {
      oneShot := once;
      sessionTaken, finished, connections := false, 0, map[];
    }

    method ConnectionMade(id: nat)
      requires Possible(Value(), Connect(id))
      modifies this
      ensures Value() == Apply(oneShot, old(Value()), Connect(id))
    {
      if oneShot && sessionTaken {
        connections := connections[id := Conn(true, true, false, false, false)];
        return;
      }
      var tookSession := false;
      if oneShot {
        sessionTaken := true;
        tookSession := true;
      }
      connections := connections[id := Conn(true, false, tookSession, false, false)];
    }

    /** Non-empty data from the client, or from the server on its behalf. */
    method DataReceived(id: nat)
      requires Possible(Value(), Bytes(id))
      modifies this
      ensures Value() == Apply(oneShot, old(Value()), Bytes(id))
    {
      if connections[id].refused {
        return;
      }
      connections := connections[id := connections[id].(sawBytes := true)];
    }

    method ConnectionLost(id: nat)
      requires Possible(Value(), Close(id))
      modifies this
      ensures Value() == Apply(oneShot, old(Value()), Close(id))
    {
      var c := connections[id];
      if c.refused {
        connections := connections[id := c.(live := false)];
        return;
      }
      if c.sawBytes {
        if oneShot {
          finished := finished + 1;
        }
        c := c.(session := true);
      } else if c.tookSession {
        sessionTaken := false;
      }
      connections := connections[id := c.(live := false)];
    }
  }
}
