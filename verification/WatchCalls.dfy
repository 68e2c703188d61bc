/** What the watch channel delivers (src/watch.rs:41-151): the published versions are exactly the values
sent, and what a call returns, whatever runs beside it. */
module WatchCalls {
  import opened Watch

  // ---------------------------------------------------------------- what is published

  /** A send that finds a receiver left adds its value; one that finds none fails. */
  function Adds<T>(s: State<T>, a: Action<T>): seq<T> {
    if a.Send? && s.receivers != map[] then [a.v] else []
  }

  /** The values of the sends along a run that find a receiver left, in order. */
  ghost function Sent<T>(s: State<T>, actions: seq<Action<T>>): seq<T>
    requires Runs(s, actions)
    decreases |actions|
  {
    if actions == [] then []
    else Adds(s, actions[0]) + Sent(Apply(s, actions[0]), actions[1..])
  }

  /** A send has been called and its value is not in place yet. */
  ghost predicate Unwritten<T>(s: State<T>) {
    s.sender == WriteLock || s.sender == Writing
  }

  ghost function Published<T>(s: State<T>): seq<T> {
    s.history + (if Unwritten(s) then [s.sending] else [])
  }

  lemma {:induction false} SenderPublishes<T>(s: State<T>)
    requires SenderReady(s)
    ensures Published(StepSender(s)) == Published(s)
  {
    if s.sender == Writing {
      assert Published(StepSender(s)) == s.history + [s.sending] + [];
    }
  }

  lemma {:induction false} StepPublishes<T>(s: State<T>, a: Action<T>)
    requires Inv(s) && Enabled(s, a)
    ensures Published(Apply(s, a)) == Published(s) + Adds(s, a)
  {
    if a.Send? {
      SendPublishes(s, a.v);
    } else if a.SenderStep? {
      SenderPublishes(s);
    } else {
      ReceiversPublishNothing(s, a);
    }
  }

  lemma {:induction false} SendPublishes<T>(s: State<T>, v: T)
    requires s.receiverCount == |s.receivers| && s.sender == Ready
    ensures Published(Apply(s, Send(v))) == Published(s) + Adds(s, Send(v))
  {
    assert s.receivers == map[] <==> |s.receivers| == 0;
  }

  lemma {:induction false} ReceiversPublishNothing<T>(s: State<T>, a: Action<T>)
    requires Enabled(s, a) && !a.Send? && !a.SenderStep?
    ensures Published(Apply(s, a)) == Published(s)
  {
  }

  lemma {:induction false} Appended<T>(before: seq<T>, first: seq<T>, rest: seq<T>, middle: seq<T>, all: seq<T>)
    requires middle == before + first && all == middle + rest
    ensures all == before + (first + rest)
  {
  }

  lemma {:induction false} RunPublishes<T>(s: State<T>, actions: seq<Action<T>>)
    requires Inv(s) && Runs(s, actions)
    ensures Published(After(s, actions)) == Published(s) + Sent(s, actions)
    decreases |actions|
  {
    if actions == [] {
      assert Published(s) + [] == Published(s);
    } else {
      var t := Apply(s, actions[0]);
      StepKeeps(s, actions[0]);
      StepPublishes(s, actions[0]);
      RunPublishes(t, actions[1..]);
      var all := Published(After(t, actions[1..]));
      Appended(Published(s), Adds(s, actions[0]), Sent(t, actions[1..]), Published(t), all);
    }
  }

  /** Over every run of a new channel the versions are the initial value and then the values sent while a
  receiver was left, in order; only the last of them may still be on its way into the cell. */
  lemma {:induction false} HistoryIsSent<T>(init: T, actions: seq<Action<T>>)
    requires Runs(Channel(init), actions)
    ensures var s, sent := After(Channel(init), actions), Sent(Channel(init), actions);
      && (Unwritten(s) ==> sent != [])
      && s.history == [init] + (if Unwritten(s) then sent[..|sent| - 1] else sent)
      && s.value == s.history[|s.history| - 1]
  {
    var s, sent := After(Channel(init), actions), Sent(Channel(init), actions);
    ChannelOk(init);
    RunKeeps(Channel(init), actions);
    RunPublishes(Channel(init), actions);
    assert Published(s) == [init] + sent;
    if Unwritten(s) {
      assert |s.history| > 0 && |sent| == |s.history|;
      assert s.history == Published(s)[..|s.history|];
    }
  }

  /** No stale read. When a receiver is handed a value, it is the newest version published, which is the
  `n - 1`st value sent for version `n` and the initial value for version 1; it is at least as new as the id
  the receiver recorded for it and as every value it was handed before. */
  lemma {:induction false} NoStaleRead<T>(init: T, actions: seq<Action<T>>, i: nat)
    requires Runs(Channel(init), actions)
    requires var s := After(Channel(init), actions); i in s.receivers && s.receivers[i].pc.Cloning?
    ensures var s, versions := After(Channel(init), actions), [init] + Sent(Channel(init), actions);
      var t := Apply(s, ReceiverStep(i));
      && 0 < s.id == |s.history| <= |versions|
      && t.receivers[i].got == Handed(versions[s.id - 1]) && t.receivers[i].seen == s.id
      && s.receivers[i].lastObserved <= s.id && s.receivers[i].seen <= s.id
  {
    ChannelOk(init);
    RunKeeps(Channel(init), actions);
    HandedNewest(After(Channel(init), actions), i);
    HistoryIsSent(init, actions);
  }

  // ---------------------------------------------------------------- what calls return

  predicate Waits(pc: ReceiverPc) {
    match pc
    case Idle => false
    case CheckAlive(m) => m != Poll
    case LoadId(m) => m != Poll
    case ReadLock(m) => m != Poll
    case Cloning(m) => m != Poll
    case _ => true
  }

  /** In a call that has not found anything new yet. */
  predicate Looking(pc: ReceiverPc) {
    pc.CheckAlive? || pc.LoadId? || pc.AcquireMutex? || pc.EnterWait? || pc.Asleep? || pc.Woken?
  }

  /** On its way to a value. */
  predicate Taking(pc: ReceiverPc) {
    pc.ReadLock? || pc.Cloning?
  }

  /** What the answer of a call says: the error, that the sender is gone; nothing new, that the receiver had
  already observed all there was when it asked; a value, that it is a published version at least as new as
  anything published when the call was made and newer than all the receiver had observed. A dead sender is
  always reported, and only a poll comes back without either. */
  ghost predicate AnswerOk<T>(s: State<T>, r: Receiver<T>) {
    match r.got
    case Pending => true
    case Unchanged => !r.call.waits && r.call.alive && r.call.id <= r.lastObserved == r.call.before
    case Closed => !s.senderAlive && r.lastObserved == r.call.before
    case Handed(v) =>
      && r.call.alive && r.call.id <= r.lastObserved && r.call.before < r.lastObserved <= r.seen <= |s.history|
      && v == s.history[r.seen - 1]
  }

  ghost predicate CallOk<T>(s: State<T>, r: Receiver<T>) {
    && r.call.id <= s.id && (!r.call.alive ==> !s.senderAlive)
    && (r.pc != Idle ==> (r.call.waits <==> Waits(r.pc)))
    && (Looking(r.pc) ==> r.got == Pending && r.lastObserved == r.call.before)
    && (Taking(r.pc) ==> r.got == Pending && r.call.before < r.lastObserved && r.call.id <= r.lastObserved)
    && (r.call.alive || r.pc == CheckAlive(Poll) || r.pc == CheckAlive(WaitStart) || r.pc == Idle)
    && (r.pc == Idle || r.pc == Returning ==> AnswerOk(s, r))
    && (r.pc == Returning ==> r.got.Closed? || r.got.Handed?)
  }

  ghost predicate CallsOk<T>(s: State<T>) {
    forall i | i in s.receivers :: CallOk(s, s.receivers[i])
  }

  /** Versions are only added, ids only grow, and a dead sender stays dead. */
  ghost predicate Grows<T>(s: State<T>, t: State<T>) {
    && s.id <= t.id && |s.history| <= |t.history|
    && (forall k | 0 <= k < |s.history| :: t.history[k] == s.history[k])
    && (!s.senderAlive ==> !t.senderAlive)
  }

  lemma {:induction false} SenderGrows<T>(s: State<T>)
    requires SenderReady(s)
    ensures Grows(s, StepSender(s))
  {
  }

  lemma {:induction false} StepGrows<T>(s: State<T>, a: Action<T>)
    requires Enabled(s, a)
    ensures Grows(s, Apply(s, a))
  {
    if a.SenderStep? {
      SenderGrows(s);
    } else {
      OthersAddNothing(s, a);
    }
  }

  lemma {:induction false} OthersAddNothing<T>(s: State<T>, a: Action<T>)
    requires Enabled(s, a) && !a.SenderStep?
    ensures Apply(s, a).history == s.history && Apply(s, a).id == s.id
    ensures !s.senderAlive ==> !Apply(s, a).senderAlive
  {
  }

  /** A receiver nobody but a `notify_all` touched. */
  lemma {:induction false} OtherCallOk<T>(s: State<T>, t: State<T>, r: Receiver<T>, r': Receiver<T>)
    requires CallOk(s, r) && Grows(s, t)
    requires r' == r || (r.pc == Asleep && r' == r.(pc := Woken))
    ensures CallOk(t, r')
  {
  }

  lemma {:induction false} CheckCallOk<T>(s: State<T>, i: nat)
    requires Inv(s) && i in s.receivers && CallOk(s, s.receivers[i]) && s.receivers[i].pc.CheckAlive?
    ensures var t := StepReceiver(s, i); i in t.receivers && CallOk(t, t.receivers[i])
  {
  }

  lemma {:induction false} LoadCallOk<T>(s: State<T>, i: nat)
    requires Inv(s) && i in s.receivers && CallOk(s, s.receivers[i]) && s.receivers[i].pc.LoadId?
    ensures var t := StepReceiver(s, i); i in t.receivers && CallOk(t, t.receivers[i])
  {
    assert ReceiverOk(s, s.receivers[i]);
  }

  lemma {:induction false} CloningCallOk<T>(s: State<T>, i: nat)
    requires Inv(s) && i in s.receivers && CallOk(s, s.receivers[i]) && s.receivers[i].pc.Cloning?
    ensures var t := StepReceiver(s, i); i in t.receivers && CallOk(t, t.receivers[i])
  {
    HandedNewest(s, i);
  }

  lemma {:induction false} OwnCallOk<T>(s: State<T>, i: nat)
    requires Inv(s) && i in s.receivers && ReceiverReady(s, i) && CallOk(s, s.receivers[i])
    ensures var t := StepReceiver(s, i); i in t.receivers && CallOk(t, t.receivers[i])
  {
    match s.receivers[i].pc
    case CheckAlive(_) => CheckCallOk(s, i);
    case LoadId(_) => LoadCallOk(s, i);
    case Cloning(_) => CloningCallOk(s, i);
    case _ => MovesOn(s, i);
  }

  /** The other steps of a call change nothing an answer depends on. */
  lemma {:induction false} MovesOn<T>(s: State<T>, i: nat)
    requires i in s.receivers && ReceiverReady(s, i) && CallOk(s, s.receivers[i])
    requires var pc := s.receivers[i].pc; !pc.CheckAlive? && !pc.LoadId? && !pc.Cloning?
    ensures var t := StepReceiver(s, i); i in t.receivers && CallOk(t, t.receivers[i])
  {
  }

  lemma {:induction false} StartCallOk<T>(s: State<T>, i: nat, waits: bool)
    requires Inv(s) && i in s.receivers
    ensures var t := Start(s, i, waits); i in t.receivers && CallOk(t, t.receivers[i])
  {
  }

  lemma {:induction false} StepCallOk<T>(s: State<T>, a: Action<T>, i: nat)
    requires Inv(s) && CallsOk(s) && Enabled(s, a) && i in Apply(s, a).receivers
    ensures CallOk(Apply(s, a), Apply(s, a).receivers[i])
  {
    if a == ReceiverStep(i) {
      OwnCallOk(s, i);
    } else if a == CallGetChanged(i) {
      StartCallOk(s, i, false);
    } else if a == CallWait(i) {
      StartCallOk(s, i, true);
    } else if i in s.receivers {
      StepGrows(s, a);
      Untouched(s, a, i);
      OtherCallOk(s, Apply(s, a), s.receivers[i], Apply(s, a).receivers[i]);
    } else {
      NewCallOk(s, a, i);
    }
  }

  lemma {:induction false} OnlyClonesJoin<T>(s: State<T>, a: Action<T>)
    requires Enabled(s, a) && !a.CloneReceiver?
    ensures Apply(s, a).receivers.Keys <= s.receivers.Keys
  {
    match a
    case ReceiverStep(i) => assert StepReceiver(s, i).receivers.Keys == s.receivers.Keys;
    case SenderStep => assert StepSender(s).receivers.Keys == s.receivers.Keys;
    case _ =>
  }

  lemma {:induction false} CloneCallOk<T>(s: State<T>, i: nat, j: nat)
    requires Enabled(s, CloneReceiver(i, j))
    ensures CallOk(Apply(s, CloneReceiver(i, j)), NewReceiver(s.receivers[i].lastObserved))
  {
  }

  lemma {:induction false} NewCallOk<T>(s: State<T>, a: Action<T>, i: nat)
    requires Enabled(s, a) && i in Apply(s, a).receivers && i !in s.receivers
    ensures CallOk(Apply(s, a), Apply(s, a).receivers[i])
  {
    if a.CloneReceiver? {
      CloneCallOk(s, a.i, a.fresh');
    } else {
      OnlyClonesJoin(s, a);
      assert false;
    }
  }

  lemma {:induction false} StepCallsOk<T>(s: State<T>, a: Action<T>)
    requires Inv(s) && CallsOk(s) && Enabled(s, a)
    ensures CallsOk(Apply(s, a))
  {
    forall i | i in Apply(s, a).receivers ensures CallOk(Apply(s, a), Apply(s, a).receivers[i]) {
      StepCallOk(s, a, i);
    }
  }

  lemma {:induction false} Untouched<T>(s: State<T>, a: Action<T>, i: nat)
    requires Inv(s) && Enabled(s, a) && i in s.receivers && i in Apply(s, a).receivers
    requires a != ReceiverStep(i) && a != CallGetChanged(i) && a != CallWait(i)
    ensures var r, r' := s.receivers[i], Apply(s, a).receivers[i];
      r' == r || (r.pc == Asleep && r' == r.(pc := Woken))
  {
    if a.ReceiverStep? {
      assert ReceiverLocks(s, a.i) && ReceiverLocks(s, i);
      OtherReceiverUntouched(s, a.i, i);
    }
  }

  lemma {:induction false} RunCallsOk<T>(s: State<T>, actions: seq<Action<T>>)
    requires Inv(s) && CallsOk(s) && Runs(s, actions)
    ensures Inv(After(s, actions)) && CallsOk(After(s, actions))
    decreases |actions|
  {
    if actions != [] {
      StepCallsOk(s, actions[0]);
      StepKeeps(s, actions[0]);
      RunCallsOk(Apply(s, actions[0]), actions[1..]);
    }
  }

  /** What every call of every run returns, whatever is interleaved with it. The value of version `n` is
  the `n - 1`st one sent, or the initial value for version 1. */
  lemma {:induction false} CallsAnswer<T>(init: T, actions: seq<Action<T>>, i: nat)
    requires Runs(Channel(init), actions)
    requires var s := After(Channel(init), actions); i in s.receivers && s.receivers[i].pc == Idle
    ensures var s := After(Channel(init), actions);
      var r, versions := s.receivers[i], [init] + Sent(Channel(init), actions);
      && AnswerOk(s, r)
      && (r.got.Handed? ==> 0 < r.seen <= |versions| && r.got.v == versions[r.seen - 1])
  {
    ChannelOk(init);
    RunCallsOk(Channel(init), actions);
    HistoryIsSent(init, actions);
    assert CallOk(After(Channel(init), actions), After(Channel(init), actions).receivers[i]);
  }

  // ---------------------------------------------------------------- calls that run alone

  /** A poll that nothing interferes with. */
  ghost function PollSteps<T>(s: State<T>, i: nat): seq<Action<T>>
    requires i in s.receivers
  {
    var step: Action<T> := ReceiverStep(i);
    [CallGetChanged(i), step] + if !s.senderAlive then []
      else if s.receivers[i].lastObserved == s.id then [step] else [step, step, step]
  }

  /** It reports a dead sender, or that nothing is new, or else the newest version, which is then observed;
  nothing but the polling receiver changes. */
  lemma {:induction false} PollAlone<T>(s: State<T>, i: nat)
    requires Inv(s) && i in s.receivers && s.receivers[i].pc == Idle && !s.writer
    ensures Runs(s, PollSteps(s, i))
    ensures var t, r := After(s, PollSteps(s, i)), s.receivers[i];
      && i in t.receivers && t == s.(receivers := s.receivers[i := t.receivers[i]])
      && t.receivers[i].pc == Idle
      && t.receivers[i].got == (
        if !s.senderAlive then Closed else if r.lastObserved == s.id then Unchanged else Handed(s.value))
      && t.receivers[i].lastObserved == (if s.senderAlive then s.id else r.lastObserved)
  {
    var actions, s1 := PollSteps(s, i), Apply(s, CallGetChanged(i));
    var step: Action<T> := ReceiverStep(i);
    assert i !in s.readers by { assert ReceiverLocks(s, i); }
    AfterOne(s, actions);
    AfterOne(s1, actions[1..]);
    var s2 := Apply(s1, step);
    if s.senderAlive {
      AfterOne(s2, actions[2..]);
      var s3 := Apply(s2, step);
      if s.receivers[i].lastObserved != s.id {
        AfterOne(s3, actions[3..]);
        var s4 := Apply(s3, step);
        AfterOne(s4, actions[4..]);
        assert s4.readers - {i} == s.readers;
      }
    }
  }

  lemma {:induction false} AfterOne<T>(s: State<T>, actions: seq<Action<T>>)
    requires actions != [] && Enabled(s, actions[0])
    ensures Runs(s, actions) <==> Runs(Apply(s, actions[0]), actions[1..])
    ensures Runs(s, actions) ==> After(s, actions) == After(Apply(s, actions[0]), actions[1..])
  {
  }

  /** A clone has observed what its original has, so it is not handed that again. */
  lemma {:induction false} CloneObserved<T>(s: State<T>, i: nat, j: nat)
    requires Inv(s) && Enabled(s, CloneReceiver(i, j)) && !s.writer && s.senderAlive
    requires s.receivers[i].lastObserved == s.id
    ensures var t := Apply(s, CloneReceiver(i, j));
      && j in t.receivers && Runs(t, PollSteps(t, j)) && j in After(t, PollSteps(t, j)).receivers
      && After(t, PollSteps(t, j)).receivers[j].got == Unchanged
  {
    CloneKeeps(s, i, j);
    PollAlone(Apply(s, CloneReceiver(i, j)), j);
  }
}
