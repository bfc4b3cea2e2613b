/** scheduleReorgLoop of core/tx_pool.go: requests to reset the pool and to promote accounts are merged
    and served by one background run at a time. */
module ReorgSchedulers {
  import opened Transactions
  import opened NonceMaps

  /** A chain head; heads are only compared. */
  type Head = nat

  /** What the loop's select can receive. */
  datatype Event =
    | ResetReq(oldHead: Head, newHead: Head)
    | PromoteReq(accounts: set<Address>)
    | TxEvent(tx: Tx)
    | RunDone
    | Shutdown

  datatype Reset = Reset(oldHead: Head, newHead: Head)

  type TxEvents = map<Address, NonceMap>

  /** A background run, as launched; `done` names the channel it closes at its end. */
  datatype Run = Run(done: nat, reset: Option<Reset>, dirty: Option<set<Address>>, txs: TxEvents)

  /** What the sender of an event gets back: nothing, the channel of a run, or the shutdown channel. */
  datatype Reply = NoReply | Done(id: nat) | ShutDown

  /** A history of the loop: the runs in order, before which event each was launched, at which event each was
      seen to be done, the replies, and the number of events handled. */
  datatype Log = Log(runs: seq<Run>, launchedAt: seq<nat>, doneAt: seq<nat>, replies: seq<Reply>, handled: nat)

  predicate IsRequest(e: Event) {
    e.ResetReq? || e.PromoteReq?
  }

  predicate HasRequest(evs: seq<Event>) {
    exists i :: 0 <= i < |evs| && IsRequest(evs[i])
  }

  /** The requests of a stretch of events merged into one: a pending reset only moves its new head. */
  function MergedReset(evs: seq<Event>): Option<Reset> {
    if evs == [] then None
    else
      var e, before := evs[|evs| - 1], MergedReset(evs[..|evs| - 1]);
      if !e.ResetReq? then before
      else if before.None? then Some(Reset(e.oldHead, e.newHead))
      else Some(before.value.(newHead := e.newHead))
  }

  function MergedDirty(evs: seq<Event>): Option<set<Address>> {
    if evs == [] then None
    else
      var e, before := evs[|evs| - 1], MergedDirty(evs[..|evs| - 1]);
      if !e.PromoteReq? then before
      else if before.None? then Some(e.accounts)
      else Some(before.value + e.accounts)
  }

  function Queued(txs: TxEvents, tx: Tx): TxEvents {
    txs[tx.sender := (if tx.sender in txs then txs[tx.sender] else map[])[tx.nonce := tx]]
  }

  function MergedTxs(evs: seq<Event>): TxEvents {
    if evs == [] then map[]
    else
      var e, before := evs[|evs| - 1], MergedTxs(evs[..|evs| - 1]);
      if e.TxEvent? then Queued(before, e.tx) else before
  }

  /** The first event after the last launch. */
  function Since(launchedAt: seq<nat>): nat {
    if launchedAt == [] then 0 else launchedAt[|launchedAt| - 1]
  }

  /** The run an event arriving as number j is merged into: launches at or before it are past. */
  function RunFor(launchedAt: seq<nat>, j: nat): nat {
    if launchedAt == [] || launchedAt[|launchedAt| - 1] <= j then |launchedAt|
    else RunFor(launchedAt[..|launchedAt| - 1], j)
  }

  function ReplyTo(e: Event, launchedAt: seq<nat>, j: nat): Reply {
    if IsRequest(e) then Done(RunFor(launchedAt, j)) else NoReply
  }

  /** Each run serves the requests since the launch before it, of which there are some, and names its own channel. */
  ghost predicate Launched(events: seq<Event>, runs: seq<Run>, launchedAt: seq<nat>, now: nat) {
    && |runs| == |launchedAt| && now <= |events|
    && (runs == [] ||
        var n := |runs| - 1;
        var from, at := Since(launchedAt[..n]), launchedAt[n];
        && from < at <= now && Launched(events, runs[..n], launchedAt[..n], at)
        && HasRequest(events[from..at])
        && runs[n] == Run(n, MergedReset(events[from..at]), MergedDirty(events[from..at]), MergedTxs(events[from..at])))
  }

  /** Launches and completions alternate, starting with a launch; `now` bounds them. A run is seen to be done at the
      first such event after its launch. */
  ghost predicate Alternating(events: seq<Event>, launchedAt: seq<nat>, doneAt: seq<nat>, now: nat)
    decreases |launchedAt| + |doneAt|
  {
    && now <= |events|
    && if launchedAt == [] then doneAt == []
       else if |doneAt| == |launchedAt| then
         var d := doneAt[|doneAt| - 1];
         d < now && events[d].RunDone? && Alternating(events, launchedAt, doneAt[..|doneAt| - 1], d)
       else
         var at := launchedAt[|launchedAt| - 1];
         && |doneAt| == |launchedAt| - 1 && at <= now && Alternating(events, launchedAt[..|launchedAt| - 1], doneAt, at)
         && forall j :: at <= j < now ==> !events[j].RunDone?
  }

  /** Every event up to now got the channel of the run it was merged into, if it was a request. */
  ghost predicate Answered(events: seq<Event>, launchedAt: seq<nat>, replies: seq<Reply>, now: nat) {
    now <= |events| && now <= |replies| && forall j :: 0 <= j < now ==> replies[j] == ReplyTo(events[j], launchedAt, j)
  }

  predicate Active(log: Log) {
    |log.doneAt| < |log.runs|
  }

  ghost predicate History(events: seq<Event>, log: Log, now: nat) {
    && Launched(events, log.runs, log.launchedAt, now)
    && Alternating(events, log.launchedAt, log.doneAt, now)
    && Answered(events, log.launchedAt, log.replies, now)
  }

  /** The events since the last launch, up to now. */
  function Waiting(events: seq<Event>, launchedAt: seq<nat>, now: nat): seq<Event>
    requires Since(launchedAt) <= now <= |events|
  {
    events[Since(launchedAt)..now]
  }

  lemma LaunchStep(events: seq<Event>, log: Log, now: nat, log': Log)
    requires History(events, log, now) && !Active(log) && Since(log.launchedAt) < now
    requires HasRequest(Waiting(events, log.launchedAt, now))
    requires var w := Waiting(events, log.launchedAt, now);
             log' == log.(runs := log.runs + [Run(|log.runs|, MergedReset(w), MergedDirty(w), MergedTxs(w))],
                          launchedAt := log.launchedAt + [now])
    ensures History(events, log', now) && Active(log') && Since(log'.launchedAt) == now
    ensures Waiting(events, log'.launchedAt, now) == []
  {
    hide MergedReset, MergedDirty, MergedTxs, HasRequest;
    assert log'.runs[..|log.runs|] == log.runs && log'.launchedAt[..|log.runs|] == log.launchedAt;
  }

  lemma Later(events: seq<Event>, log: Log, now: nat)
    requires History(events, log, now) && now < |events|
    ensures Launched(events, log.runs, log.launchedAt, now + 1)
    ensures !Active(log) || !events[now].RunDone? ==> Alternating(events, log.launchedAt, log.doneAt, now + 1)
    ensures Since(log.launchedAt) <= now && |log.runs| == |log.launchedAt|
  {
    LaunchedLater(events, log.runs, log.launchedAt, now);
    hide Launched, Answered;
    if !Active(log) || !events[now].RunDone? {
      AlternatingLater(events, log.launchedAt, log.doneAt, now);
    }
  }

  lemma LaunchedLater(events: seq<Event>, runs: seq<Run>, launchedAt: seq<nat>, now: nat)
    requires Launched(events, runs, launchedAt, now) && now < |events|
    ensures Launched(events, runs, launchedAt, now + 1) && Since(launchedAt) <= now && |runs| == |launchedAt|
  {
    hide MergedReset, MergedDirty, MergedTxs, HasRequest;
  }

  lemma AlternatingLater(events: seq<Event>, launchedAt: seq<nat>, doneAt: seq<nat>, now: nat)
    requires Alternating(events, launchedAt, doneAt, now) && now < |events|
    requires |launchedAt| <= |doneAt| || !events[now].RunDone?
    ensures Alternating(events, launchedAt, doneAt, now + 1)
  {
  }

  lemma ReplyStep(events: seq<Event>, log: Log, now: nat, log': Log)
    requires History(events, log, now) && now < |events| && |log.replies| == now
    requires log' == log.(replies := log.replies + [if IsRequest(events[now]) then Done(|log.runs|) else NoReply],
                          handled := now + 1)
    ensures Launched(events, log'.runs, log'.launchedAt, now + 1)
    ensures Answered(events, log'.launchedAt, log'.replies, now + 1)
    ensures !Active(log) || !events[now].RunDone? ==> History(events, log', now + 1)
    ensures Since(log.launchedAt) <= now
    ensures Waiting(events, log.launchedAt, now + 1) == Waiting(events, log.launchedAt, now) + [events[now]]
  {
    Later(events, log, now);
    AnsweredMore(events, log.runs, log.launchedAt, now, log.replies, log'.replies[now]);
    hide Launched, Alternating, Answered, Since;
    assert Waiting(events, log.launchedAt, now + 1) == Waiting(events, log.launchedAt, now) + [events[now]];
  }

  lemma AnsweredMore(events: seq<Event>, runs: seq<Run>, launchedAt: seq<nat>, now: nat, replies: seq<Reply>, r: Reply)
    requires Answered(events, launchedAt, replies, now) && now < |events| && |replies| == now
    requires Launched(events, runs, launchedAt, now) && r == if IsRequest(events[now]) then Done(|runs|) else NoReply
    ensures Answered(events, launchedAt, replies + [r], now + 1)
  {
    hide MergedReset, MergedDirty, MergedTxs, HasRequest;
    assert RunFor(launchedAt, now) == |launchedAt|;
    hide RunFor;
  }

  lemma DoneStep(events: seq<Event>, log: Log, now: nat, log': Log)
    requires now < |events| && Alternating(events, log.launchedAt, log.doneAt, now)
    requires Launched(events, log.runs, log.launchedAt, now + 1)
    requires Answered(events, log.launchedAt, log.replies, now + 1)
    requires events[now].RunDone? && Active(log) && log' == log.(doneAt := log.doneAt + [now])
    ensures History(events, log', now + 1) && !Active(log')
  {
    assert log'.doneAt[..|log.doneAt|] == log.doneAt;
  }

  lemma MergeStep(evs: seq<Event>, e: Event)
    ensures MergedReset(evs + [e]) == if !e.ResetReq? then MergedReset(evs)
                                      else if MergedReset(evs).None? then Some(Reset(e.oldHead, e.newHead))
                                      else Some(Reset(MergedReset(evs).value.oldHead, e.newHead))
    ensures MergedDirty(evs + [e]) == if !e.PromoteReq? then MergedDirty(evs)
                                      else if MergedDirty(evs).None? then Some(e.accounts)
                                      else Some(MergedDirty(evs).value + e.accounts)
    ensures MergedTxs(evs + [e]) == if e.TxEvent? then Queued(MergedTxs(evs), e.tx) else MergedTxs(evs)
    ensures HasRequest(evs + [e]) <==> HasRequest(evs) || IsRequest(e)
  {
    assert (evs + [e])[..|evs|] == evs;
    if HasRequest(evs) {
      var i :| 0 <= i < |evs| && IsRequest(evs[i]);
      assert IsRequest((evs + [e])[i]);
    }
    if IsRequest(e) {
      assert IsRequest((evs + [e])[|evs|]);
    }
  }

  /** The variables of scheduleReorgLoop, and its history. */
  class ReorgLoop {
    var curDone: Option<nat>
    var nextDone: nat
    var launchNextRun: bool
    var reset: Option<Reset>
    var dirtyAccounts: Option<set<Address>>
    var queuedEvents: TxEvents
    var log: Log

    /** The variables hold what is merged since the last launch. */
    ghost predicate Valid(events: seq<Event>)
      reads this
    {
      && log.handled <= |events| && |log.replies| == log.handled && Since(log.launchedAt) <= log.handled
      && History(events, log, log.handled) && nextDone == |log.runs| && curDone.Some? == Active(log)
      && var w := Waiting(events, log.launchedAt, log.handled);
         && launchNextRun == HasRequest(w) && reset == MergedReset(w)
         && dirtyAccounts == MergedDirty(w) && queuedEvents == MergedTxs(w)
    }

    constructor (ghost events: seq<Event>)
      ensures Valid(events) && log.handled == 0
    {
      curDone, nextDone, launchNextRun := None, 0, false;
      reset, dirtyAccounts, queuedEvents := None, None, map[];
      log := Log([], [], [], [], 0);
      new;
      Empty(events, log);
      NothingMerged();
    }

    /** The top of the loop: a run is launched if one is asked for and none is active. */
    method Launch(ghost events: seq<Event>)
      requires Valid(events)
      modifies this
      ensures Valid(events) && log.handled == old(log.handled) && (launchNextRun ==> curDone.Some?)
    {
      hide History, HasRequest, MergedReset, MergedDirty, MergedTxs, Waiting, Since;
      if curDone.None? && launchNextRun {
        log := log.(runs := log.runs + [Run(nextDone, reset, dirtyAccounts, queuedEvents)],
                    launchedAt := log.launchedAt + [log.handled]);
        NotEmpty(events, old(log).launchedAt, log.handled);
        LaunchStep(events, old(log), log.handled, log);
        NothingMerged();
        curDone, nextDone := Some(nextDone), nextDone + 1;
        launchNextRun := false;
        reset, dirtyAccounts, queuedEvents := None, None, map[];
      }
    }

    /** The select: one event is received. A receive from the nil channel of no active run never happens, so
        RunDone is passed over then. */
    method Receive(events: seq<Event>)
      requires Valid(events) && log.handled < |events|
      modifies this
      ensures Valid(events) && log.handled == old(log.handled) + 1
    {
      hide History, HasRequest, MergedReset, MergedDirty, MergedTxs, Waiting, Since, Queued;
      var i := log.handled;
      log := log.(replies := log.replies + [if IsRequest(events[i]) then Done(nextDone) else NoReply],
                  handled := i + 1);
      ReplyStep(events, old(log), i, log);
      MergeStep(Waiting(events, log.launchedAt, i), events[i]);
      match events[i]
      case ResetReq(oldHead, newHead) =>
        reset := Some(Reset(if reset.None? then oldHead else reset.value.oldHead, newHead));
        launchNextRun := true;
      case PromoteReq(accounts) =>
        dirtyAccounts := Some(if dirtyAccounts.None? then accounts else dirtyAccounts.value + accounts);
        launchNextRun := true;
      case TxEvent(tx) =>
        queuedEvents := Queued(queuedEvents, tx);
      case RunDone =>
        if curDone.Some? {
          ghost var active := log;
          curDone := None;
          log := log.(doneAt := log.doneAt + [i]);
          WasAlternating(events, old(log), i);
          DoneStep(events, active, i, log);
        }
      case Shutdown =>
    }
  }

  /** scheduleReorgLoop, over any events; after a shutdown, requests get the shutdown channel. */
  method ScheduleReorgLoop(events: seq<Event>) returns (log: Log)
    ensures log.handled <= |events| == |log.replies| && History(events, log, log.handled)
    ensures forall j :: 0 <= j < log.handled - 1 ==> !events[j].Shutdown?
    ensures log.handled < |events| ==> Stopped(events, log)
    ensures forall j :: log.handled <= j < |events| ==>
              log.replies[j] == if IsRequest(events[j]) then ShutDown else NoReply
    ensures Since(log.launchedAt) <= log.handled
    ensures HasRequest(Waiting(events, log.launchedAt, log.handled)) ==> Active(log) || Stopped(events, log)
  {
    hide History, HasRequest, MergedReset, MergedDirty, MergedTxs, Waiting, Since;
    var loop := new ReorgLoop(events);
    loop.Launch(events);
    while loop.log.handled < |events| && !Stopped(events, loop.log)
      invariant fresh(loop) && loop.Valid(events)
      invariant loop.launchNextRun ==> loop.curDone.Some? || Stopped(events, loop.log)
      invariant forall j :: 0 <= j < loop.log.handled - 1 ==> !events[j].Shutdown?
      decreases |events| - loop.log.handled
    {
      loop.Receive(events);
      if !Stopped(events, loop.log) {
        loop.Launch(events);
      }
    }
    var rest := AfterShutdown(events[loop.log.handled..]);
    MoreReplies(events, loop.log, rest);
    log := loop.log.(replies := loop.log.replies + rest);
  }

  /** The last event handled was the shutdown. */
  predicate Stopped(events: seq<Event>, log: Log) {
    0 < log.handled <= |events| && events[log.handled - 1].Shutdown?
  }

  function AfterShutdown(events: seq<Event>): (r: seq<Reply>)
    ensures |r| == |events| && forall j :: 0 <= j < |r| ==> r[j] == if IsRequest(events[j]) then ShutDown else NoReply
  {
    seq(|events|, j requires 0 <= j < |events| => if IsRequest(events[j]) then ShutDown else NoReply)
  }

  lemma Empty(events: seq<Event>, log: Log)
    requires log == Log([], [], [], [], 0)
    ensures History(events, log, 0) && Since([]) == 0 && Waiting(events, [], 0) == []
  {
  }

  lemma NothingMerged()
    ensures !HasRequest([]) && MergedReset([]) == None && MergedDirty([]) == None && MergedTxs([]) == map[]
  {
  }

  lemma MoreReplies(events: seq<Event>, log: Log, rest: seq<Reply>)
    requires History(events, log, log.handled)
    ensures History(events, log.(replies := log.replies + rest), log.handled)
  {
  }

  lemma NotEmpty(events: seq<Event>, launchedAt: seq<nat>, now: nat)
    requires Since(launchedAt) <= now <= |events| && HasRequest(Waiting(events, launchedAt, now))
    ensures Since(launchedAt) < now
  {
  }

  lemma WasAlternating(events: seq<Event>, log: Log, now: nat)
    requires History(events, log, now)
    ensures Alternating(events, log.launchedAt, log.doneAt, now)
  {
  }

  /** Runs never overlap: each is seen to be done before the next is launched. */
  lemma {:induction false} NoOverlap(events: seq<Event>, launchedAt: seq<nat>, doneAt: seq<nat>, now: nat, k: nat)
    requires Alternating(events, launchedAt, doneAt, now) && k < |doneAt|
    ensures |doneAt| <= |launchedAt| <= |doneAt| + 1
    ensures launchedAt[k] <= doneAt[k] < now && events[doneAt[k]].RunDone?
    ensures forall j :: launchedAt[k] <= j < doneAt[k] ==> !events[j].RunDone?
    ensures k + 1 < |launchedAt| ==> doneAt[k] < launchedAt[k + 1]
    decreases |launchedAt| + |doneAt|
  {
    var d, l := |doneAt| - 1, |launchedAt| - 1;
    if |doneAt| < |launchedAt| {
      NoOverlap(events, launchedAt[..l], doneAt, launchedAt[l], k);
    } else if k < d {
      NoOverlap(events, launchedAt, doneAt[..d], doneAt[d], k);
    }
  }

  /** The launch before run k, or the start. */
  function Start(launchedAt: seq<nat>, k: nat): nat
    requires k <= |launchedAt|
  {
    Since(launchedAt[..k])
  }

  lemma {:induction false} RunWindow(events: seq<Event>, runs: seq<Run>, launchedAt: seq<nat>, now: nat, k: nat)
    requires Launched(events, runs, launchedAt, now) && k < |runs|
    ensures Start(launchedAt, k) < launchedAt[k] <= now
    ensures var w := events[Start(launchedAt, k)..launchedAt[k]];
            HasRequest(w) && runs[k] == Run(k, MergedReset(w), MergedDirty(w), MergedTxs(w))
  {
    hide MergedReset, MergedDirty, MergedTxs, HasRequest;
    var n := |runs| - 1;
    if k < n {
      RunWindow(events, runs[..n], launchedAt[..n], launchedAt[n], k);
      assert launchedAt[..n][..k] == launchedAt[..k];
    }
  }

  /** An event is merged into the first run launched after it. */
  lemma {:induction false} RunForIsNext(events: seq<Event>, runs: seq<Run>, launchedAt: seq<nat>, now: nat, j: nat)
    requires Launched(events, runs, launchedAt, now)
    ensures var k := RunFor(launchedAt, j);
            k <= |launchedAt| && Start(launchedAt, k) <= j && (k < |launchedAt| ==> j < launchedAt[k])
  {
    hide MergedReset, MergedDirty, MergedTxs, HasRequest;
    var n := |launchedAt| - 1;
    if n >= 0 && launchedAt[n] > j {
      RunForIsNext(events, runs[..n], launchedAt[..n], launchedAt[n], j);
      var k := RunFor(launchedAt, j);
      assert launchedAt[..n][..k] == launchedAt[..k];
    } else {
      assert launchedAt[..|launchedAt|] == launchedAt;
    }
  }

  /** A merged promotion covers exactly the accounts asked for. */
  lemma {:induction false} DirtyIsUnion(evs: seq<Event>)
    ensures MergedDirty(evs).Some? <==> exists i :: 0 <= i < |evs| && evs[i].PromoteReq?
    ensures forall i :: 0 <= i < |evs| && evs[i].PromoteReq? ==> evs[i].accounts <= MergedDirty(evs).value
    ensures MergedDirty(evs).Some? ==>
              forall a :: a in MergedDirty(evs).value ==>
                exists i :: 0 <= i < |evs| && evs[i].PromoteReq? && a in evs[i].accounts
  {
    if evs != [] {
      var n := |evs| - 1;
      DirtyIsUnion(evs[..n]);
      if MergedDirty(evs[..n]).Some? {
        var i :| 0 <= i < n && evs[..n][i].PromoteReq?;
        assert evs[i].PromoteReq?;
      }
      if MergedDirty(evs).Some? {
        forall a | a in MergedDirty(evs).value
          ensures exists i :: 0 <= i < |evs| && evs[i].PromoteReq? && a in evs[i].accounts
        {
          if !(evs[n].PromoteReq? && a in evs[n].accounts) {
            var i :| 0 <= i < n && evs[..n][i].PromoteReq? && a in evs[..n][i].accounts;
            assert evs[i].PromoteReq? && a in evs[i].accounts;
          }
        }
      }
    }
  }

  /** Event i is the last one of its sender and nonce. */
  predicate IsLastOf(evs: seq<Event>, i: nat) {
    && i < |evs| && evs[i].TxEvent?
    && forall j :: i < j < |evs| && evs[j].TxEvent? ==>
         evs[j].tx.sender != evs[i].tx.sender || evs[j].tx.nonce != evs[i].tx.nonce
  }

  predicate InEvents(txs: TxEvents, a: Address, n: nat) {
    a in txs && n in txs[a]
  }

  /** The merged events hold exactly the last one of each sender and nonce. */
  lemma {:induction false} LastEventsKept(evs: seq<Event>)
    ensures forall i :: 0 <= i < |evs| && IsLastOf(evs, i) ==>
              InEvents(MergedTxs(evs), evs[i].tx.sender, evs[i].tx.nonce)
              && MergedTxs(evs)[evs[i].tx.sender][evs[i].tx.nonce] == evs[i].tx
    ensures forall a, n :: InEvents(MergedTxs(evs), a, n) ==>
              exists i :: 0 <= i < |evs| && IsLastOf(evs, i) && evs[i].tx.sender == a && evs[i].tx.nonce == n
  {
    if evs != [] {
      var n := |evs| - 1;
      LastEventsKept(evs[..n]);
      hide MergedTxs;
      MergeStep(evs[..n], evs[n]);
      assert evs[..n] + [evs[n]] == evs;
      EventMerged(evs[..n], evs[n], MergedTxs(evs[..n]), MergedTxs(evs));
    } else {
      assert MergedTxs(evs) == map[];
    }
  }

  lemma EventMerged(evs: seq<Event>, e: Event, txs: TxEvents, txs': TxEvents)
    requires forall i :: 0 <= i < |evs| && IsLastOf(evs, i) ==>
               InEvents(txs, evs[i].tx.sender, evs[i].tx.nonce) && txs[evs[i].tx.sender][evs[i].tx.nonce] == evs[i].tx
    requires forall a, n :: InEvents(txs, a, n) ==>
               exists i :: 0 <= i < |evs| && IsLastOf(evs, i) && evs[i].tx.sender == a && evs[i].tx.nonce == n
    requires txs' == if e.TxEvent? then Queued(txs, e.tx) else txs
    ensures var evs' := evs + [e];
            && (forall i :: 0 <= i < |evs'| && IsLastOf(evs', i) ==>
                  InEvents(txs', evs'[i].tx.sender, evs'[i].tx.nonce)
                  && txs'[evs'[i].tx.sender][evs'[i].tx.nonce] == evs'[i].tx)
            && (forall a, n :: InEvents(txs', a, n) ==>
                  exists i :: 0 <= i < |evs'| && IsLastOf(evs', i) && evs'[i].tx.sender == a && evs'[i].tx.nonce == n)
  {
    var evs' := evs + [e];
    forall i | 0 <= i < |evs'| && IsLastOf(evs', i)
      ensures InEvents(txs', evs'[i].tx.sender, evs'[i].tx.nonce)
      ensures txs'[evs'[i].tx.sender][evs'[i].tx.nonce] == evs'[i].tx
    {
      if i < |evs| {
        StillLast(evs, e, i);
      }
    }
    forall a, n | InEvents(txs', a, n)
      ensures exists i :: 0 <= i < |evs'| && IsLastOf(evs', i) && evs'[i].tx.sender == a && evs'[i].tx.nonce == n
    {
      if e.TxEvent? && e.tx.sender == a && e.tx.nonce == n {
        assert IsLastOf(evs', |evs|);
      } else {
        assert InEvents(txs, a, n);
        var i :| 0 <= i < |evs| && IsLastOf(evs, i) && evs[i].tx.sender == a && evs[i].tx.nonce == n;
        assert IsLastOf(evs', i);
      }
    }
  }

  lemma StillLast(evs: seq<Event>, e: Event, i: nat)
    requires i < |evs| && IsLastOf(evs + [e], i)
    ensures IsLastOf(evs, i) && (e.TxEvent? ==> e.tx.sender != evs[i].tx.sender || e.tx.nonce != evs[i].tx.nonce)
  {
    var evs' := evs + [e];
    assert evs'[i] == evs[i] && evs'[|evs|] == e;
    forall j | i < j < |evs| && evs[j].TxEvent?
      ensures evs[j].tx.sender != evs[i].tx.sender || evs[j].tx.nonce != evs[i].tx.nonce
    {
      assert evs'[j] == evs[j];
    }
  }

  predicate IsFirstReset(evs: seq<Event>, i: nat) {
    i < |evs| && evs[i].ResetReq? && forall j :: 0 <= j < i ==> !evs[j].ResetReq?
  }

  predicate IsLastReset(evs: seq<Event>, i: nat) {
    i < |evs| && evs[i].ResetReq? && forall j :: i < j < |evs| ==> !evs[j].ResetReq?
  }

  lemma {:induction false} NoReset(evs: seq<Event>)
    requires forall j :: 0 <= j < |evs| ==> !evs[j].ResetReq?
    ensures MergedReset(evs) == None
  {
    if evs != [] {
      NoReset(evs[..|evs| - 1]);
    }
  }

  /** Merged resets start from the old head of the first. */
  lemma {:induction false} FirstReset(evs: seq<Event>, i: nat)
    requires IsFirstReset(evs, i)
    ensures MergedReset(evs).Some? && MergedReset(evs).value.oldHead == evs[i].oldHead
  {
    var n := |evs| - 1;
    if i < n {
      FirstReset(evs[..n], i);
    } else {
      NoReset(evs[..n]);
    }
  }

  /** Merged resets end at the new head of the last. */
  lemma {:induction false} LastReset(evs: seq<Event>, i: nat)
    requires IsLastReset(evs, i)
    ensures MergedReset(evs).Some? && MergedReset(evs).value.newHead == evs[i].newHead
  {
    var n := |evs| - 1;
    if i < n {
      LastReset(evs[..n], i);
    }
  }

  /** The run does what a request asks for: it promotes the accounts, or it resets to the head asked for
      or to that of a later request it serves too. */
  ghost predicate Serves(run: Run, window: seq<Event>, i: nat)
    requires i < |window| && IsRequest(window[i])
  {
    if window[i].PromoteReq? then run.dirty.Some? && window[i].accounts <= run.dirty.value
    else run.reset.Some? && exists j :: i <= j && IsLastReset(window, j) && run.reset.value.newHead == window[j].newHead
  }

  /** Every request is merged into the very run whose channel its sender got, and that run serves it; if that
      run was not launched yet, no other was launched since the request. */
  lemma RequestServed(events: seq<Event>, log: Log, now: nat, i: nat)
    requires History(events, log, now) && i < now && IsRequest(events[i])
    ensures log.replies[i].Done?
    ensures var k := log.replies[i].id;
            if k < |log.runs| then
              var from, at := Start(log.launchedAt, k), log.launchedAt[k];
              from <= i < at <= now && log.runs[k].done == k && Serves(log.runs[k], events[from..at], i - from)
            else k == |log.runs| && Since(log.launchedAt) <= i
  {
    hide MergedReset, MergedDirty, MergedTxs, RunFor;
    RunForIsNext(events, log.runs, log.launchedAt, now, i);
    var k := log.replies[i].id;
    if k < |log.runs| {
      RunWindow(events, log.runs, log.launchedAt, now, k);
      var from, at := Start(log.launchedAt, k), log.launchedAt[k];
      WindowServes(events[from..at], log.runs[k], i - from);
    } else {
      assert log.launchedAt[..k] == log.launchedAt;
    }
  }

  lemma WindowServes(w: seq<Event>, run: Run, i: nat)
    requires i < |w| && IsRequest(w[i]) && run.reset == MergedReset(w) && run.dirty == MergedDirty(w)
    ensures Serves(run, w, i)
  {
    hide MergedReset, MergedDirty;
    if w[i].PromoteReq? {
      DirtyIsUnion(w);
    } else {
      var j := i;
      var m := i;
      while m < |w|
        invariant i <= j < m + 1 <= |w| + 1 && j < |w| && w[j].ResetReq? && forall x :: j < x < m ==> !w[x].ResetReq?
      {
        if w[m].ResetReq? {
          j := m;
        }
        m := m + 1;
      }
      LastReset(w, j);
    }
  }

  /** The head the pool's event loop tracked after some events, starting from `head`. */
  function Tracked(head: Head, evs: seq<Event>): Head {
    if evs == [] then head
    else if evs[|evs| - 1].ResetReq? then evs[|evs| - 1].newHead else Tracked(head, evs[..|evs| - 1])
  }

  /** The event loop asks for resets from the head it tracks. */
  ghost predicate Chained(head: Head, events: seq<Event>) {
    forall i :: 0 <= i < |events| && events[i].ResetReq? ==> events[i].oldHead == Tracked(head, events[..i])
  }

  /** The head of the last reset launched. */
  function LaunchedHead(head: Head, runs: seq<Run>): Head {
    if runs == [] then head
    else if runs[|runs| - 1].reset.Some? then runs[|runs| - 1].reset.value.newHead
    else LaunchedHead(head, runs[..|runs| - 1])
  }

  /** Over one window, the tracked head moves as the merged reset says, and that reset starts where the window does. */
  lemma {:induction false} WindowHeads(head: Head, events: seq<Event>, from: nat, at: nat)
    requires Chained(head, events) && from <= at <= |events|
    ensures var r := MergedReset(events[from..at]);
            && Tracked(head, events[..at]) == (if r.Some? then r.value.newHead else Tracked(head, events[..from]))
            && (r.Some? ==> r.value.oldHead == Tracked(head, events[..from]))
    decreases at
  {
    if from < at {
      WindowHeads(head, events, from, at - 1);
      assert events[..at][..at - 1] == events[..at - 1];
      assert events[from..at][..at - 1 - from] == events[from..at - 1];
      assert events[from..at][at - 1 - from] == events[at - 1] == events[..at][at - 1];
    }
  }

  lemma {:induction false} LaunchedIsTracked(head: Head, events: seq<Event>, runs: seq<Run>, launchedAt: seq<nat>,
                                             now: nat)
    requires Chained(head, events) && Launched(events, runs, launchedAt, now)
    ensures Since(launchedAt) <= |events| && LaunchedHead(head, runs) == Tracked(head, events[..Since(launchedAt)])
  {
    hide MergedReset, MergedDirty, MergedTxs, HasRequest;
    if runs != [] {
      var n := |runs| - 1;
      LaunchedIsTracked(head, events, runs[..n], launchedAt[..n], launchedAt[n]);
      WindowHeads(head, events, Since(launchedAt[..n]), launchedAt[n]);
    }
  }

  /** Each reset launched starts at the head where the one launched before it ended. */
  lemma ResetsChain(head: Head, events: seq<Event>, log: Log, now: nat, k: nat)
    requires Chained(head, events) && History(events, log, now) && k < |log.runs| && log.runs[k].reset.Some?
    ensures log.runs[k].reset.value.oldHead == LaunchedHead(head, log.runs[..k])
  {
    hide MergedReset, MergedDirty, MergedTxs, HasRequest;
    LaunchedPrefix(events, log.runs, log.launchedAt, now, k);
    LaunchedIsTracked(head, events, log.runs[..k], log.launchedAt[..k], log.launchedAt[k]);
    RunWindow(events, log.runs, log.launchedAt, now, k);
    WindowHeads(head, events, Start(log.launchedAt, k), log.launchedAt[k]);
  }

  lemma {:induction false} LaunchedPrefix(events: seq<Event>, runs: seq<Run>, launchedAt: seq<nat>, now: nat, k: nat)
    requires Launched(events, runs, launchedAt, now) && k < |runs|
    ensures Launched(events, runs[..k], launchedAt[..k], launchedAt[k])
  {
    hide MergedReset, MergedDirty, MergedTxs, HasRequest;
    var n := |runs| - 1;
    if k < n {
      LaunchedPrefix(events, runs[..n], launchedAt[..n], launchedAt[n], k);
      assert runs[..n][..k] == runs[..k] && launchedAt[..n][..k] == launchedAt[..k];
    }
  }
}
