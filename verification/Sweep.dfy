/** The server's sweep over its live requests: each has its time-out, and finished ones leave the list
    while the iteration is under way. */
module Sweeping {
  import opened Options
  import opened LinkedList
  import R = Receiver
  import opened ServerRequests

  /** A request after its turn: the time-out's branches, then removal is due too when it has been inactive too long. */
  function Checked(r: R.Request, expired: bool, max: nat): (R.Request, seq<R.Pdu>) {
    var t := R.OnTimeOut(r, max);
    (t.0.(cleanUp := t.0.cleanUp || expired), t.1)
  }

  /** Inactivity removes a request whatever its state; it changes nothing else, nor what is sent. */
  lemma InactiveIsRemoved(r: R.Request, expired: bool, max: nat)
    ensures var t, turn := R.OnTimeOut(r, max), Checked(r, expired, max);
      && turn.1 == t.1 && turn.0 == t.0.(cleanUp := turn.0.cleanUp) && (turn.0.cleanUp <==> expired || t.0.cleanUp)
  {
    hide R.OnTimeOut;
  }

  /** What the turns of all requests make of them and send. */
  function Turns(views: seq<R.Request>, expired: seq<bool>, max: nat): (ts: seq<(R.Request, seq<R.Pdu>)>)
    requires |views| == |expired|
    ensures |ts| == |views|
  {
    seq(|views|, i requires 0 <= i < |views| => Checked(views[i], expired[i], max))
  }

  lemma TurnAt(views: seq<R.Request>, expired: seq<bool>, max: nat, i: nat)
    requires |views| == |expired| && i < |views|
    ensures Turns(views, expired, max)[i] == Checked(views[i], expired[i], max)
  {
  }

  /** The requests, in order, whose turn does not leave them up for removal. */
  ghost function Kept(rs: seq<ServerRequest>, turns: seq<(R.Request, seq<R.Pdu>)>): seq<ServerRequest>
    requires |rs| == |turns|
  {
    if rs == [] then []
    else
      var k := |rs| - 1;
      Kept(rs[..k], turns[..k]) + if turns[k].0.cleanUp then [] else [rs[k]]
  }

  ghost function AllSent(turns: seq<(R.Request, seq<R.Pdu>)>): seq<R.Pdu> {
    if turns == [] then []
    else AllSent(turns[..|turns| - 1]) + turns[|turns| - 1].1
  }

  /** The requests left are those, and only those, that have not been inactive too long and whose own time-out does
      not ask for removal. */
  lemma {:induction false} KeptIff(rs: seq<ServerRequest>, views: seq<R.Request>, expired: seq<bool>, max: nat, i: nat)
    requires |rs| == |views| == |expired| && i < |rs| && forall j, k :: 0 <= j < k < |rs| ==> rs[j] != rs[k]
    ensures rs[i] in Kept(rs, Turns(views, expired, max)) <==> !expired[i] && !R.OnTimeOut(views[i], max).0.cleanUp
    decreases |rs|
  {
    var k := |rs| - 1;
    var turns := Turns(views, expired, max);
    assert turns[..k] == Turns(views[..k], expired[..k], max);
    hide R.OnTimeOut;
    if i < k {
      KeptIff(rs[..k], views[..k], expired[..k], max, i);
    } else {
      if rs[k] in Kept(rs[..k], turns[..k]) { KeptFrom(rs[..k], turns[..k], rs[k]); }
    }
  }

  lemma KeptExactly(rs: seq<ServerRequest>, views: seq<R.Request>, expired: seq<bool>, max: nat)
    requires |rs| == |views| == |expired| && forall j, k :: 0 <= j < k < |rs| ==> rs[j] != rs[k]
    ensures forall i :: 0 <= i < |rs| ==>
      (rs[i] in Kept(rs, Turns(views, expired, max)) <==> !expired[i] && !R.OnTimeOut(views[i], max).0.cleanUp)
  {
    forall i | 0 <= i < |rs|
      ensures rs[i] in Kept(rs, Turns(views, expired, max)) <==>
        !expired[i] && !R.OnTimeOut(views[i], max).0.cleanUp
    {
      KeptIff(rs, views, expired, max, i);
    }
  }

  lemma {:induction false} KeptFrom(rs: seq<ServerRequest>, turns: seq<(R.Request, seq<R.Pdu>)>, x: ServerRequest)
    requires |rs| == |turns| && x in Kept(rs, turns)
    ensures x in rs
    decreases |rs|
  {
    var k := |rs| - 1;
    if x in Kept(rs[..k], turns[..k]) { KeptFrom(rs[..k], turns[..k], x); }
  }

  /** What the time-outs of all requests send, inactive or not, one after another. */
  ghost function SentBy(views: seq<R.Request>, max: nat): seq<R.Pdu> {
    if views == [] then [] else SentBy(views[..|views| - 1], max) + R.OnTimeOut(views[|views| - 1], max).1
  }

  lemma {:induction false} AllSentByTimeOuts(views: seq<R.Request>, expired: seq<bool>, max: nat)
    requires |views| == |expired|
    ensures AllSent(Turns(views, expired, max)) == SentBy(views, max)
    decreases |views|
  {
    if views != [] {
      var k := |views| - 1;
      assert Turns(views, expired, max)[..k] == Turns(views[..k], expired[..k], max);
      AllSentByTimeOuts(views[..k], expired[..k], max);
    }
  }

  class Server {
    var requests: List<ServerRequest>

    constructor ()
      ensures requests.Valid() && requests.contents == []
    {
      requests := new List<ServerRequest>();
    }

    ghost predicate Distinct(rs: seq<ServerRequest>) {
      forall i, j :: 0 <= i < j < |rs| ==> rs[i] != rs[j]
    }

    /** The callback on one node: the request's time-out, the check of its inactivity, then removal of the node if
        either asks for it. */
    method TimeOutCheck(node: Node<ServerRequest>, ghost k: nat, expired: bool, max: nat) returns (sent: seq<R.Pdu>)
      requires requests.Valid() && requests.At(node, k) && k < |requests.contents|
      requires requests.contents[k].Valid()
      modifies requests, requests.nodes, requests.contents[k]
      ensures var req := old(requests.contents)[k];
        req.Valid() && (req.View(), sent) == Checked(old(requests.contents[k].View()), expired, max)
      ensures var t := R.OnTimeOut(old(requests.contents[k].View()), max);
        sent == t.1 && old(requests.contents)[k].cleanUp == (expired || t.0.cleanUp)
      ensures old(requests.contents)[k].cleanUp ==>
        requests.contents == old(requests.contents)[..k] + old(requests.contents)[k + 1..] &&
        requests.spine == old(requests.spine)[..k + 1] + old(requests.spine)[k + 2..]
      ensures !old(requests.contents)[k].cleanUp ==>
        requests.contents == old(requests.contents) && requests.spine == old(requests.spine)
      ensures requests.Valid() && requests.nodes == old(requests.nodes) && requests.tail == old(requests.tail)
    {
      hide ServerRequest.Valid, ServerRequest.View, R.OnTimeOut;
      assert node.element == Some(requests.contents[k]);
      var req := node.element.value;
      sent := req.OnServerTimeOut(max);
      req.CheckInactive(expired);
      if req.cleanUp {
        var _ := requests.RemoveNode(node, k);
      }
    }

    /** What has been kept and sent after the first `i` requests. */
    ghost predicate Done(rs: seq<ServerRequest>, turns: seq<(R.Request, seq<R.Pdu>)>, i: nat,
                         kept: seq<ServerRequest>, sent: seq<R.Pdu>)
      requires |rs| == |turns|
    {
      i <= |rs| && kept == Kept(rs[..i], turns[..i]) && sent == AllSent(turns[..i])
    }

    lemma NothingDone(rs: seq<ServerRequest>, views: seq<R.Request>, turns: seq<(R.Request, seq<R.Pdu>)>)
      requires |rs| == |views| == |turns|
      requires forall i :: 0 <= i < |views| ==> rs[i].Valid() && rs[i].View() == views[i]
      ensures Done(rs, turns, 0, [], []) && Visited(rs, views, turns, 0)
    {
      hide ServerRequest.Valid, ServerRequest.View;
    }

    lemma DoneNext(rs: seq<ServerRequest>, turns: seq<(R.Request, seq<R.Pdu>)>, i: nat,
                   kept: seq<ServerRequest>, sent: seq<R.Pdu>)
      requires |rs| == |turns| && i < |rs| && Done(rs, turns, i, kept, sent)
      ensures Done(rs, turns, i + 1, kept + if turns[i].0.cleanUp then [] else [rs[i]], sent + turns[i].1)
    {
      assert rs[..i + 1][..i] == rs[..i] && turns[..i + 1][..i] == turns[..i];
    }

    lemma AllDone(rs: seq<ServerRequest>, turns: seq<(R.Request, seq<R.Pdu>)>, kept: seq<ServerRequest>,
                  sent: seq<R.Pdu>)
      requires |rs| == |turns| && Done(rs, turns, |rs|, kept, sent)
      ensures kept == Kept(rs, turns) && sent == AllSent(turns)
    {
      hide Kept, AllSent;
      assert rs[..|rs|] == rs && turns[..|rs|] == turns;
    }

    /** The iteration stands at the tail exactly when no element is left. */
    lemma AtTail(cur: Node<ServerRequest>, k: nat)
      requires requests.Valid() && k <= |requests.contents| && cur == requests.spine[k + 1]
      ensures cur.next != null && cur != requests.tail <==> k < |requests.contents|
    {
    }

    lemma FirstNode()
      requires requests.Valid()
      ensures requests.head.next == requests.spine[1]
      ensures |requests.spine| == |requests.contents| + 2
      ensures forall i :: 0 <= i < |requests.spine| ==> requests.spine[i] in requests.nodes
    {
    }

    lemma NextNode(cur: Node<ServerRequest>, k: nat)
      requires requests.Valid() && k < |requests.contents| && cur == requests.spine[k + 1]
      ensures requests.At(cur, k) && |requests.spine| == |requests.contents| + 2 && cur.next == requests.spine[k + 2]
    {
    }

    /** The first `i` requests have had their turn, the others are as they were. */
    ghost predicate Visited(rs: seq<ServerRequest>, views: seq<R.Request>, turns: seq<(R.Request, seq<R.Pdu>)>, i: nat)
      requires |rs| == |views| == |turns|
      reads *
    {
      forall j :: 0 <= j < |rs| ==> rs[j].Valid() && rs[j].View() == if j < i then turns[j].0 else views[j]
    }

    /** One turn of the iteration: request `i` is visited, `kept` grows by it unless it is removed. */
    method SweepStep(cur: Node<ServerRequest>, ghost rs: seq<ServerRequest>, ghost views: seq<R.Request>,
                     expired: bool, ghost turns: seq<(R.Request, seq<R.Pdu>)>, ghost i: nat,
                     ghost kept: seq<ServerRequest>, max: nat)
      returns (next: Node?<ServerRequest>, more: seq<R.Pdu>, ghost kept': seq<ServerRequest>)
      requires requests.Valid() && Distinct(rs) && |views| == |rs| == |turns| && i < |rs|
      requires requests.contents == kept + rs[i..] && cur == requests.spine[|kept| + 1]
      requires Visited(rs, views, turns, i) && turns[i] == Checked(views[i], expired, max)
      modifies requests, requests.nodes, rs[i]
      ensures requests.Valid() && requests.nodes == old(requests.nodes) && requests.tail == old(requests.tail)
      ensures requests.contents == kept' + rs[i + 1..]
      ensures next != null && |requests.spine| == |requests.contents| + 2 && next == requests.spine[|kept'| + 1]
      ensures next.next != null && next != requests.tail <==> i + 1 < |rs|
      ensures kept' == kept + if turns[i].0.cleanUp then [] else [rs[i]]
      ensures more == turns[i].1 && Visited(rs, views, turns, i + 1)
    {
      hide List.Valid, ServerRequest.Valid, ServerRequest.View, R.OnTimeOut, Checked;
      FirstNode();
      NextNode(cur, |kept|);
      assert requests.contents[|kept|] == rs[i];
      next := cur.next;
      InactiveIsRemoved(views[i], expired, max);
      more := TimeOutCheck(cur, |kept|, expired, max);
      kept' := kept + if rs[i].cleanUp then [] else [rs[i]];
      assert kept + rs[i..] == kept + [rs[i]] + rs[i + 1..];
      FirstNode();
      AtTail(next, |kept'|);
    }

    lemma AllVisited(rs: seq<ServerRequest>, views: seq<R.Request>, turns: seq<(R.Request, seq<R.Pdu>)>)
      requires |rs| == |views| == |turns| && Visited(rs, views, turns, |rs|)
      ensures forall i :: 0 <= i < |views| ==> rs[i].Valid() && rs[i].View() == turns[i].0
    {
    }

    /** One sweep gives every request one turn, in order, although the callback removes the current node. `expired`
        says what the clock has to say about each request. */
    method Sweep(expired: seq<bool>, max: nat, ghost views: seq<R.Request>) returns (sent: seq<R.Pdu>)
      requires requests.Valid() && Distinct(requests.contents) && |views| == |requests.contents| == |expired|
      requires forall i :: 0 <= i < |views| ==>
        requests.contents[i].Valid() && requests.contents[i].View() == views[i]
      modifies requests, requests.nodes, requests.contents
      ensures requests.Valid()
      ensures requests.contents == Kept(old(requests.contents), Turns(views, expired, max))
      ensures forall i :: 0 <= i < |views| ==>
        old(requests.contents)[i].Valid() && old(requests.contents)[i].View() == Turns(views, expired, max)[i].0
      ensures sent == SentBy(views, max)
      ensures forall i :: 0 <= i < |views| ==>
        (old(requests.contents)[i] in requests.contents <==>
          !expired[i] && !R.OnTimeOut(views[i], max).0.cleanUp)
    {
      hide List.Valid, Visited, ServerRequest.Valid, ServerRequest.View, Done, Kept, AllSent, Checked, Turns, SentBy;
      hide R.OnTimeOut;
      ghost var rs := requests.contents;
      ghost var turns := Turns(views, expired, max);
      var cur := requests.head.next;
      sent := [];
      var i := 0;
      ghost var kept: seq<ServerRequest> := [];
      NothingDone(rs, views, turns);
      FirstNode();
      AtTail(cur, 0);
      while cur.next != null && cur != requests.tail
        invariant requests.Valid() && i <= |rs| && requests.nodes == old(requests.nodes)
        invariant Done(rs, turns, i, kept, sent)
        invariant requests.contents == kept + rs[i..]
        invariant |requests.spine| == |requests.contents| + 2 && cur == requests.spine[|kept| + 1]
        invariant cur.next != null && cur != requests.tail <==> i < |rs|
        invariant Visited(rs, views, turns, i)
        decreases |rs| - i
      {
        DoneNext(rs, turns, i, kept, sent);
        TurnAt(views, expired, max, i);
        var next, more;
        next, more, kept := SweepStep(cur, rs, views, expired[i], turns, i, kept, max);
        sent := sent + more;
        cur := next;
        i := i + 1;
      }
      AllDone(rs, turns, kept, sent);
      AllVisited(rs, views, turns);
      AllSentByTimeOuts(views, expired, max);
      KeptExactly(rs, views, expired, max);
    }
  }
}
