/** `ConnectionManager` of bindings/python/app/web.py (copied in
    scoreboard_server.py): the list of open websockets, and the broadcast
    that sends to each and drops the ones whose send fails. A connection is
    identified by a number; whether a send to it succeeds is an input. */
module Registry {
  import opened ScoreState

  type ConnId = nat

  /** The one message the scoreboard broadcasts: `{"type": "state", "data": state}`. */
  datatype Outgoing = StateMessage(data: Board)

  /** One `send_text` call: to whom, what, and whether it went through. */
  datatype Delivery = Delivery(to: ConnId, message: Outgoing, delivered: bool)

  /** `list.remove(c)`: the first occurrence of `c` taken out. */
  function RemoveFirst(conns: seq<ConnId>, c: ConnId): seq<ConnId> {
    if conns == [] then []
    else if conns[0] == c then conns[1..]
    else [conns[0]] + RemoveFirst(conns[1..], c)
  }

  /** The connections whose send went through, in their order. */
  function Surviving(conns: seq<ConnId>, delivered: ConnId -> bool): seq<ConnId> {
    if conns == [] then []
    else (if delivered(conns[0]) then [conns[0]] else []) + Surviving(conns[1..], delivered)
  }

  /** One send per connection, in list order. */
  function Attempts(conns: seq<ConnId>, m: Outgoing, delivered: ConnId -> bool): seq<Delivery> {
    seq(|conns|, i requires 0 <= i < |conns| => Delivery(conns[i], m, delivered(conns[i])))
  }

  /** Removing a connection that is not there changes nothing. */
  lemma {:induction false} RemoveFirstAbsent(conns: seq<ConnId>, c: ConnId)
    requires c !in conns
    ensures RemoveFirst(conns, c) == conns
  {
    if conns != [] {
      RemoveFirstAbsent(conns[1..], c);
      assert conns == [conns[0]] + conns[1..];
    }
  }

  /** `list.index(c)`: the position of the first occurrence. */
  function IndexOf(conns: seq<ConnId>, c: ConnId): (i: nat)
    requires c in conns
    ensures i < |conns| && conns[i] == c && c !in conns[..i]
  {
    if conns[0] == c then 0
    else
      var j := IndexOf(conns[1..], c);
      assert conns[..j + 1] == [conns[0]] + conns[1..][..j];
      j + 1
  }

  /** Removing a connection that is there takes out its first occurrence
      and keeps the order of everything before and after it. */
  lemma {:induction false} RemoveFirstPresent(conns: seq<ConnId>, c: ConnId)
    requires c in conns
    ensures RemoveFirst(conns, c) == conns[..IndexOf(conns, c)] + conns[IndexOf(conns, c) + 1..]
  {
    if conns[0] != c {
      var tail := conns[1..];
      RemoveFirstPresent(tail, c);
      var j := IndexOf(tail, c);
      assert conns[..j + 1] == [conns[0]] + tail[..j];
      assert conns[j + 2..] == tail[j + 1..];
    }
  }

  /** Either way exactly one copy of the connection, if any, is gone. */
  lemma RemoveFirstMultiset(conns: seq<ConnId>, c: ConnId)
    ensures c in conns ==> multiset(RemoveFirst(conns, c)) + multiset{c} == multiset(conns)
    ensures c !in conns ==> multiset(RemoveFirst(conns, c)) == multiset(conns)
  {
    if c in conns {
      var i := IndexOf(conns, c);
      RemoveFirstPresent(conns, c);
      var before, after := conns[..i], conns[i + 1..];
      assert conns == before + [c] + after;
      calc {
        multiset(conns);
        multiset(before + [c] + after);
        multiset(before) + multiset{c} + multiset(after);
        multiset(before + after) + multiset{c};
      }
    } else {
      RemoveFirstAbsent(conns, c);
    }
  }

  /** A connection is kept exactly when it was there and its send went
      through, as many times as it was there. */
  lemma {:induction false} SurvivingKeepsExactly(conns: seq<ConnId>, delivered: ConnId -> bool)
    ensures forall c :: c in Surviving(conns, delivered) <==> c in conns && delivered(c)
    ensures forall c :: multiset(Surviving(conns, delivered))[c] == (if delivered(c) then multiset(conns)[c] else 0)
  {
    if conns != [] {
      SurvivingKeepsExactly(conns[1..], delivered);
      assert conns == [conns[0]] + conns[1..];
    }
  }

  /** The surviving part of a concatenation is the concatenation of the
      surviving parts: the order of the kept connections is their original
      order. */
  lemma {:induction false} SurvivingConcat(a: seq<ConnId>, b: seq<ConnId>, delivered: ConnId -> bool)
    ensures Surviving(a + b, delivered) == Surviving(a, delivered) + Surviving(b, delivered)
  {
    if a == [] {
      assert a + b == b;
    } else {
      var tail := a[1..];
      assert (a + b)[0] == a[0];
      assert (a + b)[1..] == tail + b;
      SurvivingConcat(tail, b, delivered);
      var kept := if delivered(a[0]) then [a[0]] else [];
      assert Surviving(a + b, delivered) == kept + Surviving(tail + b, delivered);
      assert Surviving(a, delivered) == kept + Surviving(tail, delivered);
      assert kept + (Surviving(tail, delivered) + Surviving(b, delivered))
          == (kept + Surviving(tail, delivered)) + Surviving(b, delivered);
    }
  }

  /** When every send goes through the list is unchanged; when none does it
      ends empty. */
  lemma {:induction false} SurvivingExtremes(conns: seq<ConnId>, delivered: ConnId -> bool)
    ensures (forall i :: 0 <= i < |conns| ==> delivered(conns[i])) ==> Surviving(conns, delivered) == conns
    ensures (forall i :: 0 <= i < |conns| ==> !delivered(conns[i])) ==> Surviving(conns, delivered) == []
  {
    if conns != [] {
      SurvivingExtremes(conns[1..], delivered);
      assert forall i :: 1 <= i < |conns| ==> conns[1..][i - 1] == conns[i];
      assert conns == [conns[0]] + conns[1..];
    }
  }

  lemma {:induction false} RemoveFirstSkips(a: seq<ConnId>, b: seq<ConnId>, c: ConnId)
    requires c !in a
    ensures RemoveFirst(a + b, c) == a + RemoveFirst(b, c)
  {
    if a == [] {
      assert a + b == b;
    } else {
      assert (a + b)[1..] == a[1..] + b;
      RemoveFirstSkips(a[1..], b, c);
    }
  }

  /** One step of the broadcast loop: after the send to `snapshot[i]` the
      list is the survivors of the first `i + 1` followed by the rest,
      provided a failed send is followed by its `disconnect`. */
  lemma BroadcastStep(snapshot: seq<ConnId>, i: nat, delivered: ConnId -> bool, active: seq<ConnId>)
    requires i < |snapshot|
    requires active == Surviving(snapshot[..i], delivered) + snapshot[i..]
    ensures delivered(snapshot[i]) ==> active == Surviving(snapshot[..i + 1], delivered) + snapshot[i + 1..]
    ensures !delivered(snapshot[i]) ==>
      RemoveFirst(active, snapshot[i]) == Surviving(snapshot[..i + 1], delivered) + snapshot[i + 1..]
  {
    var c := snapshot[i];
    var kept := Surviving(snapshot[..i], delivered);
    SurvivingConcat(snapshot[..i], [c], delivered);
    assert snapshot[..i + 1] == snapshot[..i] + [c];
    assert snapshot[i..] == [c] + snapshot[i + 1..];
    if !delivered(c) {
      SurvivingKeepsExactly(snapshot[..i], delivered);
      RemoveFirstSkips(kept, snapshot[i..], c);
      assert kept + [] == kept;
    } else {
      assert kept + snapshot[i..] == (kept + [c]) + snapshot[i + 1..];
    }
  }

  lemma AttemptsStep(snapshot: seq<ConnId>, i: nat, m: Outgoing, delivered: ConnId -> bool)
    requires i < |snapshot|
    ensures Attempts(snapshot[..i + 1], m, delivered) ==
      Attempts(snapshot[..i], m, delivered) + [Delivery(snapshot[i], m, delivered(snapshot[i]))]
  {
  }

  /** Each attempt goes to the connection at the same position and carries
      the broadcast message. */
  lemma AttemptsCoverAll(conns: seq<ConnId>, m: Outgoing, delivered: ConnId -> bool)
    ensures |Attempts(conns, m, delivered)| == |conns|
    ensures forall i :: 0 <= i < |conns| ==>
      Attempts(conns, m, delivered)[i].to == conns[i] && Attempts(conns, m, delivered)[i].message == m
  {
  }

  class ConnectionManager {
    /** `active_connections`. */
    var active: seq<ConnId>
    /** Every `send_text` this manager has made, in order. */
    ghost var sent: seq<Delivery>

    constructor ()
      ensures active == [] && sent == []
    {
      active := [];
      sent := [];
    }

    /** `connect`: the accepted websocket goes to the end of the list. */
    method Connect(c: ConnId)
      modifies this`active
      ensures active == old(active) + [c]
    {
      active := active + [c];
    }

    /** `disconnect`: remove the connection if it is there. */
    method Disconnect(c: ConnId)
      modifies this`active
      ensures active == RemoveFirst(old(active), c)
    {
      if c in active {
        var i := IndexOf(active, c);
        RemoveFirstPresent(active, c);
        active := active[..i] + active[i + 1..];
      } else {
        RemoveFirstAbsent(active, c);
      }
    }

    /** `broadcast`: send to every connection of a copy of the list taken at
        the start, and disconnect each one whose send fails. */
    method Broadcast(m: Outgoing, delivered: ConnId -> bool)
      modifies this
      ensures active == Surviving(old(active), delivered)
      ensures sent == old(sent) + Attempts(old(active), m, delivered)
    {
      var snapshot := active;
      var i := 0;
      while i < |snapshot|
        invariant 0 <= i <= |snapshot|
        invariant active == Surviving(snapshot[..i], delivered) + snapshot[i..]
        invariant sent == old(sent) + Attempts(snapshot[..i], m, delivered)
      {
        var c := snapshot[i];
        var ok := delivered(c);
        sent := sent + [Delivery(c, m, ok)];
        AttemptsStep(snapshot, i, m, delivered);
        BroadcastStep(snapshot, i, delivered, active);
        if !ok {
          Disconnect(c);
        }
        i := i + 1;
      }
      assert snapshot[..i] == snapshot;
    }
  }
}
