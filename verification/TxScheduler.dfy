/**
 core/tx_pool.go, scheduleReorgLoop: requests for resets and promotions are collected while a background run is
 active and served together by the next one. A channel is a number; the history of requests and runs is kept to
 state what the channels mean.
 */
module TxScheduler {
  import opened Common
  import opened ChainTree

  datatype Heads = Heads(oldHead: Option<Hash>, newHead: Hash)

  datatype Request = Reset(heads: Heads) | Promote(accounts: set<Address>)

  /** A request and the channel its sender was given to wait on. */
  datatype Ticket = Ticket(request: Request, channel: nat)

  /** What a run was started with; its number is its channel. */
  datatype RunInfo = RunInfo(reset: Option<Heads>, dirty: Option<set<Address>>)

  datatype State = State(curDone: Option<nat>, nextDone: nat, launchNextRun: bool, reset: Option<Heads>,
                         dirty: Option<set<Address>>, log: seq<Ticket>, runs: seq<RunInfo>, closed: set<nat>,
                         stopped: bool)

  /** A request arrives, the active run closes its channel, the loop notices that, or the loop is shut down. */
  datatype Event = Ask(request: Request) | RunEnds | SeeDone | Shutdown

  function Start(): State {
    State(None, 0, false, None, None, [], [], {}, false)
  }

  /** Top of the loop: a due run is started unless one is active. */
  function Launch(s: State): State {
    if s.curDone.None? && s.launchNextRun && !s.stopped then
      s.(curDone := Some(s.nextDone), nextDone := s.nextDone + 1, launchNextRun := false, reset := None, dirty := None,
         runs := s.runs + [RunInfo(s.reset, s.dirty)])
    else s
  }

  function Coalesce(reset: Option<Heads>, heads: Heads): Option<Heads> {
    if reset.None? then Some(heads) else Some(reset.value.(newHead := heads.newHead))
  }

  function Merge(dirty: Option<set<Address>>, accounts: set<Address>): Option<set<Address>> {
    if dirty.None? then Some(accounts) else Some(dirty.value + accounts)
  }

  function Take(s: State, r: Request): State {
    var t := s.(launchNextRun := true, log := s.log + [Ticket(r, s.nextDone)]);
    match r
    case Reset(heads) => t.(reset := Coalesce(s.reset, heads))
    case Promote(accounts) => t.(dirty := Merge(s.dirty, accounts))
  }

  predicate Enabled(s: State, e: Event) {
    match e
    case Ask(_) => !s.stopped
    case RunEnds => s.curDone.Some? && s.curDone.value !in s.closed
    case SeeDone => !s.stopped && s.curDone.Some? && s.curDone.value in s.closed
    case Shutdown => !s.stopped && (s.curDone.Some? ==> s.curDone.value in s.closed)
  }

  function Step(s: State, e: Event): State
    requires Enabled(s, e)
  {
    match e
    case Ask(r) => Launch(Take(s, r))
    case RunEnds => s.(closed := s.closed + {s.curDone.value})
    case SeeDone => Launch(s.(curDone := None))
    case Shutdown => s.(closed := s.closed + {s.nextDone}, stopped := true)
  }

  /** The state after a sequence of events, as long as each is possible. */
  ghost predicate Reaches(s: State, events: seq<Event>, t: State)
    decreases |events|
  {
    if events == [] then t == s else Enabled(s, events[0]) && Reaches(Step(s, events[0]), events[1..], t)
  }

  /** What the tickets of one channel amount to: the first old head with the last new one, and all accounts. */
  function ResetOn(log: seq<Ticket>, c: nat): Option<Heads> {
    if log == [] then None
    else
      var t := log[|log| - 1];
      var before := ResetOn(log[..|log| - 1], c);
      if t.channel == c && t.request.Reset? then Coalesce(before, t.request.heads) else before
  }

  function DirtyOn(log: seq<Ticket>, c: nat): Option<set<Address>> {
    if log == [] then None
    else
      var t := log[|log| - 1];
      var before := DirtyOn(log[..|log| - 1], c);
      if t.channel == c && t.request.Promote? then Merge(before, t.request.accounts) else before
  }

  predicate Waits(log: seq<Ticket>, c: nat) {
    exists i :: 0 <= i < |log| && log[i].channel == c
  }

  lemma LogGrows(log: seq<Ticket>, t: Ticket, c: nat)
    ensures ResetOn(log + [t], c) ==
            if t.channel == c && t.request.Reset? then Coalesce(ResetOn(log, c), t.request.heads) else ResetOn(log, c)
    ensures DirtyOn(log + [t], c) ==
            if t.channel == c && t.request.Promote? then Merge(DirtyOn(log, c), t.request.accounts) else DirtyOn(log, c)
    ensures Waits(log + [t], c) <==> Waits(log, c) || t.channel == c
  {
    assert (log + [t])[..|log|] == log;
    if Waits(log, c) {
      var i :| 0 <= i < |log| && log[i].channel == c;
      assert (log + [t])[i] == log[i];
    }
    assert (log + [t])[|log|] == t;
  }

  /** A run was started with exactly what the tickets of its channel asked for. */
  ghost predicate Faithful(s: State, c: nat)
    requires c < |s.runs|
  {
    s.runs[c] == RunInfo(ResetOn(s.log, c), DirtyOn(s.log, c))
  }

  /** The loop's variables sum up the open requests, every run was faithful, and at most the last one is open. */
  ghost predicate Ledger(s: State) {
    && s.nextDone == |s.runs|
    && s.reset == ResetOn(s.log, s.nextDone) && s.dirty == DirtyOn(s.log, s.nextDone)
    && (s.launchNextRun <==> Waits(s.log, s.nextDone))
    && (forall i :: 0 <= i < |s.log| ==> s.log[i].channel <= s.nextDone)
    && (forall c: nat {:trigger Faithful(s, c)} :: c < |s.runs| ==> Faithful(s, c))
    && (s.curDone.Some? ==> s.curDone.value == |s.runs| - 1)
    && (forall c: nat :: c < |s.runs| && s.curDone != Some(c) ==> c in s.closed)
    && (forall c: nat :: c in s.closed ==> c < |s.runs| || (s.stopped && c == s.nextDone))
  }

  /** While the loop waits, a due run is held back only by an active one. */
  ghost predicate Inv(s: State) {
    Ledger(s) && (s.curDone.None? && !s.stopped ==> !s.launchNextRun)
  }

  lemma {:induction false} Unasked(log: seq<Ticket>, c: nat)
    requires !Waits(log, c)
    ensures ResetOn(log, c) == None && DirtyOn(log, c) == None
  {
    if log != [] {
      var n := |log| - 1;
      assert log[n].channel != c && forall i :: 0 <= i < n ==> log[..n][i] == log[i];
      Unasked(log[..n], c);
    }
  }

  lemma LaunchKeeps(s: State)
    requires Ledger(s) && !s.stopped
    ensures Inv(Launch(s))
  {
    hide ResetOn, DirtyOn;
    var t := Launch(s);
    forall c: nat | c < |t.runs|
      ensures Faithful(t, c)
    {
      assert c < |s.runs| ==> Faithful(s, c);
    }
    assert !Waits(s.log, |s.runs| + 1);
    Unasked(s.log, |s.runs| + 1);
  }

  lemma TakeKeeps(s: State, r: Request)
    requires Ledger(s) && !s.stopped
    ensures Ledger(Take(s, r))
  {
    hide ResetOn, DirtyOn, Waits;
    var t := Take(s, r);
    LogGrows(s.log, Ticket(r, s.nextDone), s.nextDone);
    forall c: nat | c < |t.runs|
      ensures Faithful(t, c)
    {
      assert Faithful(s, c);
      LogGrows(s.log, Ticket(r, s.nextDone), c);
    }
  }

  /** Changing the channels leaves the runs what they were. */
  lemma RunsStay(s: State, t: State)
    requires Ledger(s) && t.runs == s.runs && t.log == s.log
    ensures forall c: nat {:trigger Faithful(t, c)} :: c < |t.runs| ==> Faithful(t, c)
  {
    forall c: nat | c < |t.runs|
      ensures Faithful(t, c)
    {
      assert Faithful(s, c);
    }
  }

  lemma StepKeeps(s: State, e: Event)
    requires Inv(s) && Enabled(s, e)
    ensures Inv(Step(s, e))
  {
    hide ResetOn, DirtyOn, Waits;
    match e {
      case Ask(r) =>
        TakeKeeps(s, r);
        LaunchKeeps(Take(s, r));
      case RunEnds =>
        RunsStay(s, Step(s, e));
      case SeeDone =>
        RunsStay(s, s.(curDone := None));
        LaunchKeeps(s.(curDone := None));
      case Shutdown =>
        RunsStay(s, Step(s, e));
    }
  }

  lemma {:induction false} RunKeeps(s: State, events: seq<Event>, t: State)
    requires Inv(s) && Reaches(s, events, t)
    ensures Inv(t)
    decreases |events|
  {
    if events != [] {
      StepKeeps(s, events[0]);
      RunKeeps(Step(s, events[0]), events[1..], t);
    }
  }

  /** A run that has not closed its channel. */
  predicate Active(s: State, c: nat) {
    c < |s.runs| && c !in s.closed
  }

  /** In every reachable state at most one run is active. */
  lemma OneActive(events: seq<Event>, s: State, c: nat, d: nat)
    requires Reaches(Start(), events, s) && Active(s, c) && Active(s, d)
    ensures c == d
  {
    RunKeeps(Start(), events, s);
  }

  /** The run carries the request: it is a reset, or the accounts are among its dirty ones. */
  predicate Carries(run: RunInfo, r: Request) {
    match r
    case Reset(heads) => run.reset.Some?
    case Promote(accounts) => run.dirty.Some? && accounts <= run.dirty.value
  }

  lemma {:induction false} TicketCovered(log: seq<Ticket>, i: nat)
    requires i < |log|
    ensures Carries(RunInfo(ResetOn(log, log[i].channel), DirtyOn(log, log[i].channel)), log[i].request)
    decreases |log|
  {
    if i < |log| - 1 {
      TicketCovered(log[..|log| - 1], i);
    }
  }

  /**
   A channel is closed by a run that carries every request waiting on it, or it is the one closed at shutdown, which no
   run was started for.
   */
  lemma ClosedByCarrier(events: seq<Event>, s: State, i: nat)
    requires Reaches(Start(), events, s) && i < |s.log| && s.log[i].channel in s.closed
    ensures var c := s.log[i].channel;
            if s.stopped && c == s.nextDone then c == |s.runs|
            else c < |s.runs| && Carries(s.runs[c], s.log[i].request)
  {
    RunKeeps(Start(), events, s);
    if s.log[i].channel < |s.runs| {
      assert Faithful(s, s.log[i].channel);
      TicketCovered(s.log, i);
    }
  }

  /** The first and the last reset request of a channel. */
  ghost predicate FirstReset(log: seq<Ticket>, c: nat, i: nat) {
    i < |log| && log[i].channel == c && log[i].request.Reset?
    && forall k :: 0 <= k < i && log[k].channel == c ==> !log[k].request.Reset?
  }

  ghost predicate LastReset(log: seq<Ticket>, c: nat, j: nat) {
    j < |log| && log[j].channel == c && log[j].request.Reset?
    && forall k :: j < k < |log| && log[k].channel == c ==> !log[k].request.Reset?
  }

  lemma {:induction false} NoResets(log: seq<Ticket>, c: nat)
    requires forall k :: 0 <= k < |log| && log[k].channel == c ==> !log[k].request.Reset?
    ensures ResetOn(log, c) == None
  {
    if log != [] {
      assert forall k :: 0 <= k < |log| - 1 ==> log[..|log| - 1][k] == log[k];
      NoResets(log[..|log| - 1], c);
    }
  }

  lemma {:induction false} SpanOf(log: seq<Ticket>, c: nat, i: nat, j: nat)
    requires FirstReset(log, c, i) && LastReset(log, c, j)
    ensures ResetOn(log, c) == Some(Heads(log[i].request.heads.oldHead, log[j].request.heads.newHead))
    decreases |log|
  {
    var n := |log| - 1;
    var init := log[..n];
    assert forall k :: 0 <= k < n ==> init[k] == log[k];
    if j < n {
      assert FirstReset(init, c, i) && LastReset(init, c, j);
      SpanOf(init, c, i, j);
    } else if i == n {
      NoResets(init, c);
    } else {
      var m := LastBefore(init, c, i);
      SpanOf(init, c, i, m);
    }
  }

  lemma {:induction false} LastBefore(log: seq<Ticket>, c: nat, i: nat) returns (m: nat)
    requires FirstReset(log, c, i)
    ensures LastReset(log, c, m)
    decreases |log|
  {
    var n := |log| - 1;
    if log[n].channel == c && log[n].request.Reset? {
      m := n;
    } else {
      assert forall k :: 0 <= k < n ==> log[..n][k] == log[k];
      m := LastBefore(log[..n], c, i);
    }
  }

  /** A run that resets spans from the first old head asked for to the last new head. */
  lemma ResetSpans(events: seq<Event>, s: State, c: nat, i: nat, j: nat)
    requires Reaches(Start(), events, s) && c < |s.runs| && FirstReset(s.log, c, i) && LastReset(s.log, c, j)
    ensures s.runs[c].reset == Some(Heads(s.log[i].request.heads.oldHead, s.log[j].request.heads.newHead))
  {
    RunKeeps(Start(), events, s);
    assert Faithful(s, c);
    SpanOf(s.log, c, i, j);
  }

  /** Nothing else is run: a reset or an account of a run was asked for on its channel. */
  lemma {:induction false} OnlyAsked(log: seq<Ticket>, c: nat, a: Address)
    requires DirtyOn(log, c).Some? && a in DirtyOn(log, c).value
    ensures exists i :: 0 <= i < |log| && log[i].channel == c && log[i].request.Promote? && a in log[i].request.accounts
    decreases |log|
  {
    var n := |log| - 1;
    var t := log[n];
    if !(t.channel == c && t.request.Promote? && a in t.request.accounts) {
      OnlyAsked(log[..n], c, a);
      var i :| 0 <= i < n && log[..n][i].channel == c && log[..n][i].request.Promote?
          && a in log[..n][i].request.accounts;
      assert log[i] == log[..n][i];
    }
  }

  /** No request is lost: its channel is closed, or belongs to the active run, or is served when that run has ended. */
  lemma NextServes(events: seq<Event>, s: State, i: nat)
    requires Reaches(Start(), events, s) && i < |s.log| && !s.stopped && s.log[i].channel !in s.closed
    ensures s.curDone.Some?
    ensures var c := s.log[i].channel;
            var s1 := if s.curDone.value in s.closed then s else Step(s, RunEnds);
            && Enabled(s1, SeeDone)
            && (c in s1.closed || (var s2 := Step(s1, SeeDone); Enabled(s2, RunEnds) && c in Step(s2, RunEnds).closed))
  {
    RunKeeps(Start(), events, s);
    var c := s.log[i].channel;
    if c == s.nextDone {
      assert Waits(s.log, s.nextDone);
    }
  }

  /** The loop's variables, changed in place by the cases of its select statement. */
  class ReorgLoop {
    var curDone: Option<nat>
    var nextDone: nat
    var launchNextRun: bool
    var reset: Option<Heads>
    var dirty: Option<set<Address>>
    var closed: set<nat>
    var stopped: bool
    ghost var log: seq<Ticket>
    ghost var runs: seq<RunInfo>

    ghost function View(): State
      reads this
    {
      State(curDone, nextDone, launchNextRun, reset, dirty, log, runs, closed, stopped)
    }

    constructor ()
      ensures View() == Start() && Inv(View())
    {
      curDone, nextDone, launchNextRun, reset, dirty := None, 0, false, None, None;
      closed, stopped, log, runs := {}, false, [], [];
    }

    method LaunchIfDue()
      requires !stopped
      modifies this
      ensures View() == Launch(old(View()))
    {
      if curDone.None? && launchNextRun {
        runs := runs + [RunInfo(reset, dirty)];
        curDone, nextDone := Some(nextDone), nextDone + 1;
        launchNextRun := false;
        reset, dirty := None, None;
      }
    }

    /** A reset request is merged into a pending one; its sender gets the channel of the next run. */
    method OnReset(heads: Heads) returns (done: nat)
      requires Inv(View()) && !stopped
      modifies this
      ensures View() == Step(old(View()), Ask(Reset(heads))) && Inv(View())
      ensures done == log[|log| - 1].channel && log == old(log) + [Ticket(Reset(heads), done)]
    {
      hide Inv;
      StepKeeps(View(), Ask(Reset(heads)));
      if reset.None? {
        reset := Some(heads);
      } else {
        reset := Some(reset.value.(newHead := heads.newHead));
      }
      launchNextRun := true;
      done := nextDone;
      log := log + [Ticket(Reset(heads), nextDone)];
      LaunchIfDue();
    }

    method OnPromote(accounts: set<Address>) returns (done: nat)
      requires Inv(View()) && !stopped
      modifies this
      ensures View() == Step(old(View()), Ask(Promote(accounts))) && Inv(View())
      ensures done == log[|log| - 1].channel && log == old(log) + [Ticket(Promote(accounts), done)]
    {
      hide Inv;
      StepKeeps(View(), Ask(Promote(accounts)));
      if dirty.None? {
        dirty := Some(accounts);
      } else {
        dirty := Some(dirty.value + accounts);
      }
      launchNextRun := true;
      done := nextDone;
      log := log + [Ticket(Promote(accounts), nextDone)];
      LaunchIfDue();
    }

    method OnDone()
      requires Inv(View()) && Enabled(View(), SeeDone)
      modifies this
      ensures View() == Step(old(View()), SeeDone) && Inv(View())
    {
      StepKeeps(View(), SeeDone);
      curDone := None;
      LaunchIfDue();
    }

    /** The active run returns. */
    method OnRunEnds()
      requires Inv(View()) && Enabled(View(), RunEnds)
      modifies this
      ensures View() == Step(old(View()), RunEnds) && Inv(View())
    {
      StepKeeps(View(), RunEnds);
      closed := closed + {curDone.value};
    }

    method OnShutdown()
      requires Inv(View()) && Enabled(View(), Shutdown)
      modifies this
      ensures View() == Step(old(View()), Shutdown) && Inv(View())
    {
      StepKeeps(View(), Shutdown);
      closed := closed + {nextDone};
      stopped := true;
    }
  }
}
