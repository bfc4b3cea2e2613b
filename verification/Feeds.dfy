/** Feed of event/feed.go: one-to-many delivery over channels. */
module Feeds {
  /** A subscriber's channel; channels are only compared. */
  type Channel = nat

  /** A select case: the channel of removal requests, which comes first, or a subscriber's. */
  datatype Case = RemoveSub | Sub(channel: Channel)

  const FIRST_SUB_SEND_CASE := 1

  /** Exchanging entries i and c - 1 takes entry i out of the first c and puts it before the others. */
  lemma Deactivated(s: seq<Case>, i: nat, c: nat)
    requires 1 <= i < c <= |s|
    ensures var t := s[i := s[c - 1]][c - 1 := s[i]];
            && multiset(s[1..c]) == multiset(t[1..c - 1]) + multiset{s[i]}
            && multiset(t[c - 1..]) == multiset(s[c..]) + multiset{s[i]}
            && t[0] == s[0]
  {
    var t := s[i := s[c - 1]][c - 1 := s[i]];
    assert t[c - 1..] == [s[i]] + s[c..];
    if i == c - 1 {
      assert s[1..c] == t[1..c - 1] + [s[i]];
    } else {
      DeactivatedInside(s, i, c);
    }
  }

  lemma DeactivatedInside(s: seq<Case>, i: nat, c: nat)
    requires 1 <= i < c - 1 < |s|
    ensures multiset(s[1..c]) == multiset(s[i := s[c - 1]][c - 1 := s[i]][1..c - 1]) + multiset{s[i]}
  {
    var t, x, y := s[i := s[c - 1]][c - 1 := s[i]], s[i], s[c - 1];
    var u, v := s[1..i], s[i + 1..c - 1];
    Around(s, i, c);
    Around(t, i, c);
    assert t[1..i] == u && t[i + 1..c - 1] == v && t[i] == y;
    Reordered(u, v, x, y);
  }

  lemma Around(s: seq<Case>, i: nat, c: nat)
    requires 1 <= i < c - 1 < |s|
    ensures s[1..c - 1] == s[1..i] + [s[i]] + s[i + 1..c - 1] && s[1..c] == s[1..c - 1] + [s[c - 1]]
  {
  }

  lemma Reordered(u: seq<Case>, v: seq<Case>, x: Case, y: Case)
    ensures multiset(u + [x] + v + [y]) == multiset(u + [y] + v) + multiset{x}
  {
  }

  /** Taking entry i out of the list takes it out of the first c if it is one of them, */
  lemma DeletedActive(s: seq<Case>, i: nat, c: nat)
    requires 1 <= i < c <= |s|
    ensures var t := s[..i] + s[i + 1..];
            t[0] == s[0] && multiset(s[1..c]) == multiset(t[1..c - 1]) + multiset{s[i]} && t[c - 1..] == s[c..]
  {
    var t := s[..i] + s[i + 1..];
    assert s[1..c] == s[1..i] + [s[i]] + s[i + 1..c];
    assert t[1..c - 1] == s[1..i] + s[i + 1..c];
  }

  /** and out of the others if it is not. */
  lemma DeletedDone(s: seq<Case>, i: nat, c: nat)
    requires 1 <= c <= i < |s|
    ensures var t := s[..i] + s[i + 1..];
            t[0] == s[0] && t[1..c] == s[1..c] && multiset(s[c..]) == multiset(t[c..]) + multiset{s[i]}
  {
    var t := s[..i] + s[i + 1..];
    assert s[c..] == s[c..i] + [s[i]] + s[i + 1..];
    assert t[c..] == s[c..i] + s[i + 1..];
  }

  function Subs(inbox: seq<Channel>): (r: seq<Case>)
    ensures |r| == |inbox| && forall i :: 0 <= i < |r| ==> r[i] == Sub(inbox[i])
  {
    seq(|inbox|, i requires 0 <= i < |inbox| => Sub(inbox[i]))
  }

  /** All subscriptions, in the cases and in the inbox. */
  ghost function Subscribed(cases: seq<Case>, inbox: seq<Channel>): multiset<Case>
    requires |cases| > 0
  {
    multiset(cases[1..]) + multiset(Subs(inbox))
  }

  lemma AllSubscribed(cases: seq<Case>, inbox: seq<Channel>, all: seq<Case>)
    requires |cases| > 0 && all == cases + Subs(inbox)
    ensures multiset(all[1..]) == Subscribed(cases, inbox)
  {
    assert all[1..] == cases[1..] + Subs(inbox);
  }

  /** What Send does to a case: it delivers the value to it, or receives a request to remove it. */
  datatype Step = Delivered(to: Case) | Removed(sub: Case)

  /** The deliveries of a trace, in order. */
  function Deliveries(trace: seq<Step>): seq<Case> {
    if trace == [] then []
    else
      var s := trace[|trace| - 1];
      Deliveries(trace[..|trace| - 1]) + if s.Delivered? then [s.to] else []
  }

  /** The removal requests of a trace, in order. */
  function Removals(trace: seq<Step>): seq<Case> {
    if trace == [] then []
    else
      var s := trace[|trace| - 1];
      Removals(trace[..|trace| - 1]) + if s.Removed? then [s.sub] else []
  }

  /** The subscriptions removed while still waiting for the value: at the request, not all of that case had been
      delivered to or lost. */
  function Lost(initial: multiset<Case>, trace: seq<Step>): multiset<Case> {
    if trace == [] then multiset{}
    else
      var before, s := trace[..|trace| - 1], trace[|trace| - 1];
      var lost := Lost(initial, before);
      if s.Removed? && initial[s.sub] > multiset(Deliveries(before))[s.sub] + lost[s.sub] then lost + multiset{s.sub}
      else lost
  }

  lemma TraceStep(initial: multiset<Case>, trace: seq<Step>, s: Step)
    ensures Deliveries(trace + [s]) == Deliveries(trace) + if s.Delivered? then [s.to] else []
    ensures Removals(trace + [s]) == Removals(trace) + if s.Removed? then [s.sub] else []
    ensures var lost := Lost(initial, trace);
            Lost(initial, trace + [s]) ==
            if s.Removed? && initial[s.sub] > multiset(Deliveries(trace))[s.sub] + lost[s.sub] then
              lost + multiset{s.sub}
            else lost
  {
    assert (trace + [s])[..|trace|] == trace;
  }

  /** The first c cases are what is left to deliver to, and all cases are what no request has removed. */
  ghost predicate Parts(cases: seq<Case>, initial: multiset<Case>, c: nat, trace: seq<Step>) {
    && 1 <= c <= |cases|
    && initial == multiset(cases[1..c]) + multiset(Deliveries(trace)) + Lost(initial, trace)
    && initial == multiset(cases[1..]) + multiset(Removals(trace))
  }

  lemma PartsStart(cases: seq<Case>)
    requires |cases| > 0
    ensures Parts(cases, multiset(cases[1..]), |cases|, [])
  {
    assert cases[1..|cases|] == cases[1..];
  }

  lemma PartsDelivered(cases: seq<Case>, initial: multiset<Case>, c: nat, trace: seq<Step>, i: nat)
    requires Parts(cases, initial, c, trace) && 1 <= i < c
    ensures Parts(cases[i := cases[c - 1]][c - 1 := cases[i]], initial, c - 1, trace + [Delivered(cases[i])])
  {
    hide Deliveries, Removals, Lost;
    TraceStep(initial, trace, Delivered(cases[i]));
    Deactivated(cases, i, c);
    SameAfterSwap(cases, i, c);
    OneMore(Deliveries(trace), cases[i]);
  }

  lemma SameAfterSwap(s: seq<Case>, i: nat, c: nat)
    requires 1 <= i < c <= |s|
    ensures multiset(s[i := s[c - 1]][c - 1 := s[i]][1..]) == multiset(s[1..])
  {
    var t := s[i := s[c - 1]][c - 1 := s[i]];
    Deactivated(s, i, c);
    InTwo(s, c);
    InTwo(t, c - 1);
  }

  lemma InTwo(s: seq<Case>, c: nat)
    requires 1 <= c <= |s|
    ensures multiset(s[1..]) == multiset(s[1..c]) + multiset(s[c..])
  {
    assert s[1..] == s[1..c] + s[c..];
  }

  lemma OneMore(s: seq<Case>, x: Case)
    ensures multiset(s + [x]) == multiset(s) + multiset{x}
  {
  }

  lemma PartsRemoved(cases: seq<Case>, initial: multiset<Case>, c: nat, trace: seq<Step>, i: nat)
    requires Parts(cases, initial, c, trace) && 1 <= i < |cases| && forall j :: 0 <= j < i ==> cases[j] != cases[i]
    ensures Parts(cases[..i] + cases[i + 1..], initial, if i < c then c - 1 else c, trace + [Removed(cases[i])])
  {
    hide Deliveries, Removals, Lost;
    TraceStep(initial, trace, Removed(cases[i]));
    OneMore(Removals(trace), cases[i]);
    OneLess(cases, i);
    if i < c {
      DeletedActive(cases, i, c);
      assert Parts(cases[..i] + cases[i + 1..], initial, c - 1, trace + [Removed(cases[i])]);
    } else {
      NotActive(cases, i, c);
      DeletedDone(cases, i, c);
      assert Parts(cases[..i] + cases[i + 1..], initial, c, trace + [Removed(cases[i])]);
    }
  }

  lemma OneLess(s: seq<Case>, i: nat)
    requires 1 <= i < |s|
    ensures multiset(s[1..]) == multiset((s[..i] + s[i + 1..])[1..]) + multiset{s[i]}
  {
    assert s[1..] == s[1..i] + [s[i]] + s[i + 1..];
    assert (s[..i] + s[i + 1..])[1..] == s[1..i] + s[i + 1..];
  }

  lemma NotActive(s: seq<Case>, i: nat, c: nat)
    requires 1 <= c <= i < |s| && forall j :: 0 <= j < i ==> s[j] != s[i]
    ensures multiset(s[1..c])[s[i]] == 0
  {
    assert s[i] !in s[1..c];
  }

  lemma PartsEnd(cases: seq<Case>, initial: multiset<Case>, trace: seq<Step>)
    requires Parts(cases, initial, 1, trace)
    ensures multiset(Deliveries(trace)) + Lost(initial, trace) == initial
    ensures initial == multiset(cases[1..]) + multiset(Removals(trace))
  {
  }

  /** A request for a subscription that was there at the start finds its case. */
  lemma RequestFound(cases: seq<Case>, initial: multiset<Case>, c: nat, trace: seq<Step>, requests: seq<Channel>,
                     k: nat)
    requires Parts(cases, initial, c, trace) && multiset(Subs(requests)) <= initial
    requires k < |requests| && Removals(trace) == Subs(requests[..k])
    ensures Sub(requests[k]) in cases && Subs(requests[..k + 1]) == Subs(requests[..k]) + [Sub(requests[k])]
  {
    hide Deliveries, Removals, Lost;
    var s := Subs(requests);
    assert Subs(requests[..k]) == s[..k] && Subs(requests[..k + 1]) == s[..k] + [s[k]];
    assert s == s[..k] + [s[k]] + s[k + 1..];
    assert multiset(s)[s[k]] > multiset(s[..k])[s[k]];
    assert s[k] in multiset(cases[1..]);
  }

  /** A request to remove x comes before any delivery to x. */
  predicate RemovedFirst(trace: seq<Step>, x: Case) {
    exists i :: 0 <= i < |trace| && RemovedFirstAt(trace, x, i)
  }

  predicate RemovedFirstAt(trace: seq<Step>, x: Case, i: nat)
    requires i < |trace|
  {
    trace[i] == Removed(x) && forall j :: 0 <= j < i ==> trace[j] != Delivered(x)
  }

  /** With distinct channels: every channel subscribed at the start is delivered to exactly once unless a request to
      remove it comes before its delivery, and every other channel never. */
  lemma ExactlyOnce(initial: multiset<Case>, trace: seq<Step>, x: Case)
    requires multiset(Deliveries(trace)) + Lost(initial, trace) == initial && forall y :: initial[y] <= 1
    ensures multiset(Deliveries(trace))[x] == if x in initial && !RemovedFirst(trace, x) then 1 else 0
  {
    hide Deliveries, Lost;
    LostIsRemovedFirst(initial, trace, x);
  }

  lemma {:induction false} LostIsRemovedFirst(initial: multiset<Case>, trace: seq<Step>, x: Case)
    requires multiset(Deliveries(trace))[x] + Lost(initial, trace)[x] <= initial[x] <= 1
    ensures Lost(initial, trace)[x] > 0 <==> initial[x] > 0 && RemovedFirst(trace, x)
    ensures multiset(Deliveries(trace))[x] > 0 <==> Delivered(x) in trace
  {
    if trace == [] {
      assert !RemovedFirst(trace, x);
    } else {
      hide Deliveries, Lost, RemovedFirst;
      var n := |trace| - 1;
      var before, s := trace[..n], trace[n];
      assert trace == before + [s];
      Counted(initial, before, s, x);
      LostIsRemovedFirst(initial, before, x);
      RemovedFirstStep(before, s, x);
    }
  }

  /** How one step changes the counts of x. */
  lemma Counted(initial: multiset<Case>, before: seq<Step>, s: Step, x: Case)
    ensures multiset(Deliveries(before + [s]))[x] ==
            multiset(Deliveries(before))[x] + if s == Delivered(x) then 1 else 0
    ensures var d, lost := multiset(Deliveries(before))[x], Lost(initial, before)[x];
            Lost(initial, before + [s])[x] == lost + if s == Removed(x) && initial[x] > d + lost then 1 else 0
    ensures Delivered(x) in before + [s] <==> Delivered(x) in before || s == Delivered(x)
  {
    hide Deliveries, Lost;
    TraceStep(initial, before, s);
  }

  lemma RemovedFirstStep(before: seq<Step>, s: Step, x: Case)
    ensures RemovedFirst(before + [s], x) <==> RemovedFirst(before, x) || (s == Removed(x) && Delivered(x) !in before)
  {
    var trace := before + [s];
    assert forall j :: 0 <= j < |before| ==> before[j] == trace[j];
    if RemovedFirst(before, x) {
      var i :| 0 <= i < |before| && RemovedFirstAt(before, x, i);
      assert RemovedFirstAt(trace, x, i);
    }
    if s == Removed(x) && Delivered(x) !in before {
      assert RemovedFirstAt(trace, x, |before|);
    }
    if RemovedFirst(trace, x) {
      var i :| 0 <= i < |trace| && RemovedFirstAt(trace, x, i);
      if i < |before| {
        assert RemovedFirstAt(before, x, i);
      }
    }
  }

  class Feed {
    var sendCases: array<Case>
    var len: nat
    var inbox: seq<Channel>

    /** The cases are the first `len` entries of the array, the removal channel first. */
    ghost predicate Valid()
      reads this, sendCases
    {
      1 <= len <= sendCases.Length && sendCases[0] == RemoveSub && forall i :: 1 <= i < len ==> sendCases[i].Sub?
    }

    /** The cases in order. */
    ghost function Cases(): seq<Case>
      reads this, sendCases
      requires len <= sendCases.Length
    {
      sendCases[..len]
    }

    constructor ()
      ensures Valid() && fresh(sendCases) && len == 1 && inbox == []
    {
      sendCases := new Case[1](_ => RemoveSub);
      len, inbox := 1, [];
    }

    /** Subscribe: the next Send will take the channel from the inbox. */
    method Subscribe(channel: Channel)
      requires Valid()
      modifies this`inbox
      ensures Valid() && inbox == old(inbox) + [channel]
    {
      inbox := inbox + [channel];
    }

    /** find: the first case of a channel, or -1. */
    method Find(channel: Channel) returns (index: int)
      requires Valid()
      ensures index == -1 ==> Sub(channel) !in Cases()
      ensures index != -1 ==> 1 <= index < len && sendCases[index] == Sub(channel)
      ensures index != -1 ==> forall i :: 0 <= i < index ==> sendCases[i] != Sub(channel)
    {
      index := 0;
      while index < len
        invariant 0 <= index <= len && forall i :: 0 <= i < index ==> sendCases[i] != Sub(channel)
      {
        if sendCases[index] == Sub(channel) {
          return;
        }
        index := index + 1;
      }
      index := -1;
    }

    /** delete: the cases behind an index move one place forward, in place. */
    method Delete(index: nat)
      requires Valid() && 1 <= index < len
      modifies this`len, sendCases
      ensures Valid() && sendCases == old(sendCases) && Cases() == old(Cases()[..index] + Cases()[index + 1..])
    {
      var i := index;
      while i < len - 1
        invariant index <= i < len == old(len) && sendCases == old(sendCases)
        invariant forall k :: 0 <= k < index || i <= k < len ==> sendCases[k] == old(sendCases[k])
        invariant forall k :: index <= k < i ==> sendCases[k] == old(sendCases[k + 1])
      {
        sendCases[i] := sendCases[i + 1];
        i := i + 1;
      }
      len := len - 1;
    }

    /** deactivate: the case at an index changes places with the last of the first c. */
    method Deactivate(index: nat, c: nat)
      requires Valid() && 1 <= index < c <= len
      modifies sendCases
      ensures Valid() && Cases() == old(Cases()[index := Cases()[c - 1]][c - 1 := Cases()[index]])
    {
      sendCases[index], sendCases[c - 1] := sendCases[c - 1], sendCases[index];
    }

    /** Send takes the inbox into the cases. */
    method TakeInbox()
      requires Valid()
      modifies this
      ensures Valid() && inbox == [] && fresh(sendCases)
      ensures Cases() == old(Cases()) + Subs(old(inbox))
    {
      var all := new Case[len + |inbox|](i requires 0 <= i < len + |inbox|
                                         && len <= sendCases.Length reads this, sendCases =>
                                           if i < len then sendCases[i] else Sub(inbox[i - len]));
      sendCases, len, inbox := all, len + |inbox|, [];
    }

    /** remove, while no Send is in progress: the channel leaves the inbox, or else the cases. */
    method Remove(channel: Channel)
      requires Valid() && (channel in inbox || Sub(channel) in Cases())
      modifies this`inbox, this`len, sendCases
      ensures Valid() && sendCases == old(sendCases)
      ensures if channel in old(inbox) then
                multiset(old(inbox)) == multiset(inbox) + multiset{channel} && Cases() == old(Cases())
              else inbox == old(inbox) && multiset(old(Cases())) == multiset(Cases()) + multiset{Sub(channel)}
    {
      var k := 0;
      while k < |inbox|
        invariant k <= |inbox| && forall j :: 0 <= j < k ==> inbox[j] != channel
      {
        if inbox[k] == channel {
          assert inbox == inbox[..k] + [channel] + inbox[k + 1..];
          inbox := inbox[..k] + inbox[k + 1..];
          return;
        }
        k := k + 1;
      }
      var index := Find(channel);
      ghost var s := Cases();
      Delete(index);
      assert s == s[..index] + [Sub(channel)] + s[index + 1..];
    }

    /** How far Send has come, with c cases left: those before c have yet to be delivered to, those behind have been. */
    ghost predicate Sending(initial: multiset<Case>, c: nat, trace: seq<Step>)
      reads this, sendCases
    {
      Valid() && 1 <= c <= len && Parts(Cases(), initial, c, trace)
    }

    /** A case that was delivered to is deactivated. */
    method Deliver(index: nat, c: nat, ghost initial: multiset<Case>, trace: seq<Step>) returns (trace': seq<Step>)
      requires Sending(initial, c, trace) && 1 <= index < c
      modifies sendCases
      ensures Sending(initial, c - 1, trace') && trace' == trace + [Delivered(old(sendCases[index]))]
    {
      hide Parts;
      PartsDelivered(Cases(), initial, c, trace, index);
      trace' := trace + [Delivered(sendCases[index])];
      Deactivate(index, c);
    }

    /** Send, fast path: every case left is tried once without blocking; `sent` tells whether it was ready. */
    method TrySends(c0: nat, nsent0: nat, ghost initial: multiset<Case>, trace0: seq<Step>)
      returns (c: nat, nsent: nat, trace: seq<Step>)
      requires Sending(initial, c0, trace0) && nsent0 == |Deliveries(trace0)|
      modifies sendCases
      ensures Sending(initial, c, trace) && nsent == |Deliveries(trace)| && c <= c0
      ensures Removals(trace) == Removals(trace0)
    {
      hide Sending, Deliveries, Removals, Lost;
      c, nsent, trace := c0, nsent0, trace0;
      SendingBounds(initial, c, trace);
      var i := FIRST_SUB_SEND_CASE;
      while i < c
        invariant 1 <= i && c <= c0 && Sending(initial, c, trace) && nsent == |Deliveries(trace)|
        invariant Removals(trace) == Removals(trace0)
        decreases c - i
      {
        var sent: bool := *;
        if sent {
          SendingBounds(initial, c, trace);
          TraceStep(initial, trace, Delivered(sendCases[i]));
          trace := Deliver(i, c, initial, trace);
          c, nsent := c - 1, nsent + 1;
        } else {
          i := i + 1;
        }
      }
    }

    lemma SendingBounds(initial: multiset<Case>, c: nat, trace: seq<Step>)
      requires Sending(initial, c, trace)
      ensures Valid() && 1 <= c <= len
    {
    }

    /** Send, a removal request: its case goes, from the ones left if it is among them. */
    method RemoveDuring(channel: Channel, c: nat, ghost initial: multiset<Case>, trace: seq<Step>)
      returns (c': nat, trace': seq<Step>)
      requires Sending(initial, c, trace) && Sub(channel) in Cases()
      modifies this`len, sendCases
      ensures Sending(initial, c', trace') && sendCases == old(sendCases) && trace' == trace + [Removed(Sub(channel))]
      ensures len == old(len) - 1 && (c' == c || c' == c - 1)
    {
      hide Parts;
      var index := Find(channel);
      PartsRemoved(Cases(), initial, c, trace, index);
      trace' := trace + [Removed(Sub(channel))];
      c' := if index < c then c - 1 else c;
      Delete(index);
    }

    /** Send, one select: a request is received, or a ready channel gets the value. The two lengths together fall. */
    method Select(requests: seq<Channel>, c: nat, nsent: nat, received: nat, ghost initial: multiset<Case>,
                  trace: seq<Step>)
      returns (c': nat, nsent': nat, received': nat, trace': seq<Step>)
      requires Sending(initial, c, trace) && c > 1 && nsent == |Deliveries(trace)|
      requires multiset(Subs(requests)) <= initial
      requires received <= |requests| && Removals(trace) == Subs(requests[..received])
      modifies this`len, sendCases
      ensures Sending(initial, c', trace') && sendCases == old(sendCases) && nsent' == |Deliveries(trace')|
      ensures received' <= |requests| && Removals(trace') == Subs(requests[..received']) && len + c' < old(len) + c
    {
      hide Parts, Deliveries, Removals, Lost;
      c', nsent', received' := c, nsent, received;
      var chosen: nat :| chosen < c && (chosen == 0 ==> received < |requests|);
      if chosen == 0 {
        RequestFound(Cases(), initial, c, trace, requests, received);
        TraceStep(initial, trace, Removed(Sub(requests[received])));
        c', trace' := RemoveDuring(requests[received], c, initial, trace);
        received' := received + 1;
      } else {
        TraceStep(initial, trace, Delivered(sendCases[chosen]));
        trace' := Deliver(chosen, c, initial, trace);
        c', nsent' := c - 1, nsent + 1;
      }
    }

    /** Send. `requests` are the removals that others will ask for, each of a subscription of its own; the choices
        stand for the channels that are ready and for what select chooses; meanwhile the inbox may change. The trace
        is what it did on channels, in order: its requests are the first `received` ones, its deliveries counted, each
        subscription was delivered to once or lost to a request that came first; those no request removed remain. */
    method Send(requests: seq<Channel>) returns (nsent: nat, received: nat, trace: seq<Step>)
      requires Valid() && multiset(Subs(requests)) <= Subscribed(Cases(), inbox)
      modifies this, sendCases
      ensures Valid() && fresh(sendCases)
      ensures received <= |requests| && Removals(trace) == Subs(requests[..received])
      ensures nsent == |Deliveries(trace)|
      ensures var initial := Subscribed(old(Cases()), old(inbox));
              && multiset(Deliveries(trace)) + Lost(initial, trace) == initial
              && multiset(Cases()[1..]) + multiset(Removals(trace)) == initial
    {
      hide Parts, Subscribed, Deliveries, Removals, Lost, Subs;
      TakeInbox();
      ghost var initial := multiset(Cases()[1..]);
      AllSubscribed(old(Cases()), old(inbox), Cases());
      PartsStart(Cases());
      NothingDone();
      var c := len;
      nsent, received, trace := 0, 0, [];
      while true
        invariant fresh(sendCases) && Sending(initial, c, trace) && nsent == |Deliveries(trace)|
        invariant received <= |requests| && Removals(trace) == Subs(requests[..received])
        decreases len + c
      {
        c, nsent, trace := TrySends(c, nsent, initial, trace);
        if c == FIRST_SUB_SEND_CASE {
          break;
        }
        c, nsent, received, trace := Select(requests, c, nsent, received, initial, trace);
        inbox := *;
      }
      PartsEnd(Cases(), initial, trace);
    }
  }

  lemma NothingDone()
    ensures Deliveries([]) == [] && Removals([]) == Subs([])
  {
  }
}
