// The module-level `send_message` of mailers.py: `retries + 1` passes over
// the shuffled mailer list, stopping at the first mailer whose send
// succeeds and recording it in the job's meta, swallowing every failure.
//
// The outcome of each call is an input: `outcome(pass, index)` is what the
// mailer at position `index` of the list gives on pass `pass`.

module Orchestrator {
  import opened Values

  /** `get_available_mailers()` */
  function AvailableMailers(): seq<MailerKind>
  {
    [MailGun, Mandrill]
  }

  /** `params.get('retries', 1)` */
  function RetriesOf(p: SendParams): (r: int)
    ensures p.retries.None? ==> r == 1
    ensures p.retries.Some? ==> r == p.retries.value
  {
    match p.retries
    case None => 1
    case Some(n) => n
  }

  /** The number of passes `while retries >= 0: ...; retries = retries - 1` makes. */
  function Passes(retries: int): nat
  {
    if retries >= 0 then retries + 1 else 0
  }

  /** One call: pass number and position in the mailer list. */
  datatype Attempt = Attempt(pass: nat, index: nat)

  /** The calls made, in order, and the attempt that succeeded, if any. */
  datatype Run = Run(calls: seq<Attempt>, winner: Option<Attempt>)

  /** The attempt that follows `a` in a list of `n` mailers. */
  function Next(a: Attempt, n: nat): Attempt
  {
    if a.index + 1 < n then Attempt(a.pass, a.index + 1) else Attempt(a.pass + 1, 0)
  }

  /** `a` comes no later than `b` (pass first, then position). */
  predicate NoLater(a: Attempt, b: Attempt)
  {
    a.pass < b.pass || (a.pass == b.pass && a.index <= b.index)
  }

  /** The calls from pass `r`, position `i` on, over `n` mailers and `passes` passes. */
  function RunFrom(n: nat, passes: nat, outcome: (nat, nat) -> SendOutcome, r: nat, i: nat): Run
    requires i <= n
    decreases passes - r, n - i
  {
    if r >= passes then Run([], None)
    else if i == n then RunFrom(n, passes, outcome, r + 1, 0)
    else if outcome(r, i).Sent? then Run([Attempt(r, i)], Some(Attempt(r, i)))
    else
      var rest := RunFrom(n, passes, outcome, r, i + 1);
      Run([Attempt(r, i)] + rest.calls, rest.winner)
  }

  /** The whole run: every pass from the first mailer on. */
  function RunAll(n: nat, retries: int, outcome: (nat, nat) -> SendOutcome): Run
  {
    RunFrom(n, Passes(retries), outcome, 0, 0)
  }

  // ---------------------------------------------------------------------
  // What a run is

  /**
   * Every call lies within the passes and the list, the calls follow the
   * list order pass after pass, and the first is the first attempt that
   * lies within them.
   */
  lemma {:induction false} RunInListOrder(n: nat, passes: nat, outcome: (nat, nat) -> SendOutcome, r: nat, i: nat)
    requires i <= n
    ensures var c := RunFrom(n, passes, outcome, r, i).calls;
      (forall k :: 0 <= k < |c| ==> r <= c[k].pass < passes && c[k].index < n) &&
      (forall k :: 0 <= k < |c| ==> NoLater(Attempt(r, i), c[k])) &&
      (forall k :: 0 < k < |c| ==> c[k] == Next(c[k - 1], n)) &&
      (|c| > 0 && i < n ==> c[0] == Attempt(r, i)) &&
      (|c| > 0 && i == n ==> c[0] == Attempt(r + 1, 0))
    decreases passes - r, n - i
  {
    if r >= passes {
    } else if i == n {
      RunInListOrder(n, passes, outcome, r + 1, 0);
      var c := RunFrom(n, passes, outcome, r + 1, 0).calls;
      if |c| > 0 && n > 0 {
        assert c[0] == Attempt(r + 1, 0);
      }
      if n == 0 {
        RunWithNoMailers(passes, outcome, r + 1);
      }
    } else if !outcome(r, i).Sent? {
      RunInListOrder(n, passes, outcome, r, i + 1);
      var rest := RunFrom(n, passes, outcome, r, i + 1).calls;
      var c := [Attempt(r, i)] + rest;
      if |rest| > 0 {
        if i + 1 < n {
          assert rest[0] == Attempt(r, i + 1);
        } else {
          assert rest[0] == Attempt(r + 1, 0);
        }
        assert c[1] == Next(c[0], n);
      }
      forall k | 1 < k < |c| ensures c[k] == Next(c[k - 1], n) {
        assert c[k] == rest[k - 1] && c[k - 1] == rest[k - 2];
      }
      forall k | 0 < k < |c| ensures NoLater(Attempt(r, i), c[k]) && r <= c[k].pass < passes && c[k].index < n {
        assert c[k] == rest[k - 1];
      }
    }
  }

  /** With no mailers nothing is ever called. */
  lemma {:induction false} RunWithNoMailers(passes: nat, outcome: (nat, nat) -> SendOutcome, r: nat)
    ensures RunFrom(0, passes, outcome, r, 0) == Run([], None)
    decreases passes - r
  {
    if r < passes {
      RunWithNoMailers(passes, outcome, r + 1);
    }
  }

  /**
   * The run stops at the first success: the winner succeeded and is the
   * last call, and every call before it failed. With no winner, every call
   * failed.
   */
  lemma {:induction false} RunStopsAtFirstSuccess(n: nat, passes: nat, outcome: (nat, nat) -> SendOutcome, r: nat, i: nat)
    requires i <= n
    ensures var run := RunFrom(n, passes, outcome, r, i);
      (run.winner.Some? ==> |run.calls| > 0 && run.calls[|run.calls| - 1] == run.winner.value) &&
      (run.winner.Some? ==> outcome(run.winner.value.pass, run.winner.value.index).Sent?) &&
      (run.winner.Some? ==> run.winner.value.index < n) &&
      (run.winner.Some? ==> forall k :: 0 <= k < |run.calls| - 1 ==> !outcome(run.calls[k].pass, run.calls[k].index).Sent?) &&
      (run.winner.None? ==> forall k :: 0 <= k < |run.calls| ==> !outcome(run.calls[k].pass, run.calls[k].index).Sent?)
    decreases passes - r, n - i
  {
    if r >= passes {
    } else if i == n {
      RunStopsAtFirstSuccess(n, passes, outcome, r + 1, 0);
    } else if !outcome(r, i).Sent? {
      RunStopsAtFirstSuccess(n, passes, outcome, r, i + 1);
      var rest := RunFrom(n, passes, outcome, r, i + 1);
      var c := [Attempt(r, i)] + rest.calls;
      forall k | 0 < k < |c| ensures c[k] == rest.calls[k - 1] { }
    }
  }

  /** No mailer after the winner is called: every call comes no later than the winner. */
  lemma LaterMailersNeverCalled(n: nat, retries: int, outcome: (nat, nat) -> SendOutcome)
    ensures var run := RunAll(n, retries, outcome);
      run.winner.Some? ==> forall k :: 0 <= k < |run.calls| ==> NoLater(run.calls[k], run.winner.value)
  {
    var run := RunAll(n, retries, outcome);
    RunInListOrder(n, Passes(retries), outcome, 0, 0);
    RunStopsAtFirstSuccess(n, Passes(retries), outcome, 0, 0);
    if run.winner.Some? {
      forall k | 0 <= k < |run.calls| ensures NoLater(run.calls[k], run.winner.value) {
        ChainNoLaterThanLast(run.calls, n, k);
      }
    }
  }

  /** In calls that each follow the one before, every call comes no later than the last. */
  lemma {:induction false} ChainNoLaterThanLast(c: seq<Attempt>, n: nat, k: nat)
    requires k < |c|
    requires forall j :: 0 < j < |c| ==> c[j] == Next(c[j - 1], n)
    ensures NoLater(c[k], c[|c| - 1])
    decreases |c| - k
  {
    if k < |c| - 1 {
      ChainNoLaterThanLast(c, n, k + 1);
      assert c[k + 1] == Next(c[k], n);
    }
  }

  /** There is a winner exactly when some attempt within the passes and the list succeeds. */
  lemma {:induction false} WinnerIffSomeSuccess(n: nat, passes: nat, outcome: (nat, nat) -> SendOutcome, r: nat, i: nat)
    requires i <= n
    ensures RunFrom(n, passes, outcome, r, i).winner.Some? <==>
      exists a: Attempt :: NoLater(Attempt(r, i), a) && a.pass < passes && a.index < n && outcome(a.pass, a.index).Sent?
    decreases passes - r, n - i
  {
    if r >= passes {
    } else if i == n {
      WinnerIffSomeSuccess(n, passes, outcome, r + 1, 0);
      if exists a: Attempt :: NoLater(Attempt(r, i), a) && a.pass < passes && a.index < n && outcome(a.pass, a.index).Sent? {
        var a: Attempt :| NoLater(Attempt(r, i), a) && a.pass < passes && a.index < n && outcome(a.pass, a.index).Sent?;
        assert NoLater(Attempt(r + 1, 0), a);
      }
    } else if !outcome(r, i).Sent? {
      WinnerIffSomeSuccess(n, passes, outcome, r, i + 1);
      if exists a: Attempt :: NoLater(Attempt(r, i), a) && a.pass < passes && a.index < n && outcome(a.pass, a.index).Sent? {
        var a: Attempt :| NoLater(Attempt(r, i), a) && a.pass < passes && a.index < n && outcome(a.pass, a.index).Sent?;
        assert a != Attempt(r, i);
        assert NoLater(Attempt(r, i + 1), a);
      }
    } else {
      assert NoLater(Attempt(r, i), Attempt(r, i));
    }
  }

  /** How many of the calls went to the mailer at position `j`. */
  function CallsTo(calls: seq<Attempt>, j: nat): nat
  {
    if calls == [] then 0
    else CallsTo(calls[..|calls| - 1], j) + (if calls[|calls| - 1].index == j then 1 else 0)
  }

  lemma {:induction false} CallsToAppend(a: seq<Attempt>, b: seq<Attempt>, j: nat)
    ensures CallsTo(a + b, j) == CallsTo(a, j) + CallsTo(b, j)
    decreases |b|
  {
    if b == [] {
      assert a + b == a;
    } else {
      assert (a + b)[..|a + b| - 1] == a + b[..|b| - 1];
      CallsToAppend(a, b[..|b| - 1], j);
    }
  }

  /**
   * When every attempt fails, each mailer at or after position `i` is called
   * once more than those before it: the first pass starts at `i`.
   */
  lemma {:induction false} CallsPerMailerWhenAllFail(n: nat, passes: nat, outcome: (nat, nat) -> SendOutcome, r: nat, i: nat, j: nat)
    requires i <= n && j < n && r <= passes
    requires RunFrom(n, passes, outcome, r, i).winner.None?
    ensures CallsTo(RunFrom(n, passes, outcome, r, i).calls, j) ==
      if r == passes then 0 else if j < i then passes - r - 1 else passes - r
    decreases passes - r, n - i
  {
    if r >= passes {
    } else if i == n {
      CallsPerMailerWhenAllFail(n, passes, outcome, r + 1, 0, j);
    } else {
      CallsPerMailerWhenAllFail(n, passes, outcome, r, i + 1, j);
      var rest := RunFrom(n, passes, outcome, r, i + 1).calls;
      CallsToAppend([Attempt(r, i)], rest, j);
      assert [Attempt(r, i)][..0] == [];
    }
  }

  /** If every attempt fails, each mailer of the list is called exactly once per pass. */
  lemma EveryMailerCalledEachPass(n: nat, retries: int, outcome: (nat, nat) -> SendOutcome, j: nat)
    requires j < n
    requires RunAll(n, retries, outcome).winner.None?
    ensures CallsTo(RunAll(n, retries, outcome).calls, j) == Passes(retries)
  {
    CallsPerMailerWhenAllFail(n, Passes(retries), outcome, 0, 0, j);
  }

  /** How many of the calls went to a mailer of kind `k` of the list `mailers`. */
  function CallsToKind(calls: seq<Attempt>, mailers: seq<MailerKind>, k: MailerKind): nat
  {
    if calls == [] then 0
    else
      var last := calls[|calls| - 1];
      CallsToKind(calls[..|calls| - 1], mailers, k) + (if last.index < |mailers| && mailers[last.index] == k then 1 else 0)
  }

  /** When kind `k` sits only at position `j`, the calls to `k` are the calls to `j`. */
  lemma {:induction false} CallsToKindAt(calls: seq<Attempt>, mailers: seq<MailerKind>, k: MailerKind, j: nat)
    requires j < |mailers| && mailers[j] == k
    requires forall x :: 0 <= x < |mailers| && x != j ==> mailers[x] != k
    requires forall c :: 0 <= c < |calls| ==> calls[c].index < |mailers|
    ensures CallsToKind(calls, mailers, k) == CallsTo(calls, j)
    decreases |calls|
  {
    if calls != [] {
      CallsToKindAt(calls[..|calls| - 1], mailers, k, j);
    }
  }

  /**
   * With the real mailers in any order, if every attempt fails then each
   * provider is called exactly once per pass.
   */
  lemma EachProviderCalledEachPass(mailers: seq<MailerKind>, retries: int, outcome: (nat, nat) -> SendOutcome, k: MailerKind)
    requires multiset(mailers) == multiset(AvailableMailers())
    requires RunAll(|mailers|, retries, outcome).winner.None?
    ensures CallsToKind(RunAll(|mailers|, retries, outcome).calls, mailers, k) == Passes(retries)
  {
    assert |mailers| == 2 by {
      calc {
        |mailers|;
        |multiset(mailers)|;
        |multiset(AvailableMailers())|;
        2;
      }
    }
    assert mailers == [mailers[0], mailers[1]];
    assert multiset{mailers[0], mailers[1]} == multiset{MailGun, Mandrill};
    assert multiset{mailers[0], mailers[1]}[MailGun] == 1 && multiset{mailers[0], mailers[1]}[Mandrill] == 1;
    assert (mailers[0] == MailGun && mailers[1] == Mandrill) || (mailers[0] == Mandrill && mailers[1] == MailGun);
    var j: nat := if mailers[0] == k then 0 else 1;
    RunInListOrder(|mailers|, Passes(retries), outcome, 0, 0);
    CallsToKindAt(RunAll(|mailers|, retries, outcome).calls, mailers, k, j);
    EveryMailerCalledEachPass(|mailers|, retries, outcome, j);
  }

  /** A negative `retries` makes no pass: no mailer is called. */
  lemma NegativeRetriesCallsNothing(n: nat, retries: int, outcome: (nat, nat) -> SendOutcome)
    requires retries < 0
    ensures RunAll(n, retries, outcome) == Run([], None)
  {
  }

  /** Without `retries` each mailer gets two tries: the default is one retry. */
  lemma DefaultRetriesIsTwoPasses(p: SendParams)
    requires p.retries.None?
    ensures Passes(RetriesOf(p)) == 2
  {
  }

  /**
   * The scenario of `test_send_message_uses_backups_on_failure` in tests.py: four mailers, the
   * first raising MailNotSentException, the second some other exception, the
   * third succeeding; the fourth is never called.
   */
  lemma BackupsUsedOnFailure(retries: int, outcome: (nat, nat) -> SendOutcome)
    requires retries >= 0
    requires forall r: nat :: outcome(r, 0) == NotSent("b", 0)
    requires forall r: nat :: outcome(r, 1) == SendCrashed(TransportFailure)
    requires forall r: nat :: outcome(r, 2) == Sent([])
    ensures RunAll(4, retries, outcome) == Run([Attempt(0, 0), Attempt(0, 1), Attempt(0, 2)], Some(Attempt(0, 2)))
    ensures CallsTo(RunAll(4, retries, outcome).calls, 0) == 1 && CallsTo(RunAll(4, retries, outcome).calls, 1) == 1
    ensures CallsTo(RunAll(4, retries, outcome).calls, 2) == 1 && CallsTo(RunAll(4, retries, outcome).calls, 3) == 0
  {
    var passes := Passes(retries);
    RunStep(4, passes, outcome, 0, 2);
    RunStep(4, passes, outcome, 0, 1);
    RunStep(4, passes, outcome, 0, 0);
    assert RunFrom(4, passes, outcome, 0, 1) == Run([Attempt(0, 1), Attempt(0, 2)], Some(Attempt(0, 2)));
    var c := [Attempt(0, 0), Attempt(0, 1), Attempt(0, 2)];
    assert RunAll(4, retries, outcome) == Run(c, Some(Attempt(0, 2)));
    assert c[..2][..1] == [Attempt(0, 0)] && c[..2] == [Attempt(0, 0), Attempt(0, 1)];
    assert [Attempt(0, 0)][..0] == [];
  }

  // ---------------------------------------------------------------------
  // The job and the loop

  /** One step of a run: a success ends it, a failure goes on to the next position. */
  lemma RunStep(n: nat, passes: nat, outcome: (nat, nat) -> SendOutcome, r: nat, i: nat)
    requires r < passes && i < n
    ensures outcome(r, i).Sent? ==> RunFrom(n, passes, outcome, r, i) == Run([Attempt(r, i)], Some(Attempt(r, i)))
    ensures !outcome(r, i).Sent? ==>
      RunFrom(n, passes, outcome, r, i).calls == [Attempt(r, i)] + RunFrom(n, passes, outcome, r, i + 1).calls &&
      RunFrom(n, passes, outcome, r, i).winner == RunFrom(n, passes, outcome, r, i + 1).winner
  {
  }

  /** The end of a pass: the run goes on with the next pass, or stops after the last. */
  lemma RunPassEnd(n: nat, passes: nat, outcome: (nat, nat) -> SendOutcome, r: nat)
    ensures r < passes ==> RunFrom(n, passes, outcome, r, n) == RunFrom(n, passes, outcome, r + 1, 0)
    ensures r >= passes ==> RunFrom(n, passes, outcome, r, 0) == Run([], None)
  {
  }

  lemma AppendAssoc(a: seq<Attempt>, b: seq<Attempt>, c: seq<Attempt>)
    ensures (a + b) + c == a + (b + c)
  {
  }

  /** The `meta` of the rq job running the send, and how often it was saved. */
  class JobMeta {
    var handledBy: Option<string>
    var messagesInfo: Option<seq<MessageInfo>>
    var saves: nat

    /** A job whose meta holds neither key. */
    constructor ()
      ensures handledBy == None && messagesInfo == None && saves == 0
    {
      handledBy := None;
      messagesInfo := None;
      saves := 0;
    }

    /** `job.meta['handled_by'] = name` */
    method SetHandledBy(name: string)
      modifies this
      ensures handledBy == Some(name)
      ensures messagesInfo == old(messagesInfo) && saves == old(saves)
    {
      handledBy := Some(name);
    }

    /** `job.meta['messages_info'] = infos` */
    method SetMessagesInfo(infos: seq<MessageInfo>)
      modifies this
      ensures messagesInfo == Some(infos)
      ensures handledBy == old(handledBy) && saves == old(saves)
    {
      messagesInfo := Some(infos);
    }

    /** `job.save()` */
    method Save()
      modifies this
      ensures saves == old(saves) + 1
      ensures handledBy == old(handledBy) && messagesInfo == old(messagesInfo)
    {
      saves := saves + 1;
    }
  }

  /**
   * `mailers.send_message(**params)` over the already shuffled list
   * `mailers`. The ghost `calls` records the calls made. On the first
   * success the job's meta gets the mailer's class name and its records and
   * is saved once; if every attempt fails, the job is left as it was.
   */
  method SendMessage(p: SendParams, mailers: seq<MailerKind>, outcome: (nat, nat) -> SendOutcome, job: JobMeta)
    returns (ghost calls: seq<Attempt>)
    modifies job
    ensures calls == RunAll(|mailers|, RetriesOf(p), outcome).calls
    ensures var w := RunAll(|mailers|, RetriesOf(p), outcome).winner;
      w.None? ==> job.handledBy == old(job.handledBy) && job.messagesInfo == old(job.messagesInfo) && job.saves == old(job.saves)
    ensures var w := RunAll(|mailers|, RetriesOf(p), outcome).winner;
      w.Some? ==> (
        && w.value.index < |mailers|
        && outcome(w.value.pass, w.value.index).Sent?
        && job.handledBy == Some(ClassName(mailers[w.value.index]))
        && job.messagesInfo == Some(outcome(w.value.pass, w.value.index).infos)
        && job.saves == old(job.saves) + 1)
  {
    ghost var n := |mailers|;
    ghost var passes := Passes(RetriesOf(p));
    ghost var full := RunFrom(n, passes, outcome, 0, 0);
    var start := RetriesOf(p);
    var retries := start;
    calls := [];
    assert calls + full.calls == full.calls;
    while retries >= 0
      invariant start >= 0 ==> -1 <= retries <= start
      invariant start < 0 ==> retries == start
      invariant 0 <= start - retries <= passes
      invariant calls + RunFrom(n, passes, outcome, start - retries, 0).calls == full.calls
      invariant RunFrom(n, passes, outcome, start - retries, 0).winner == full.winner
      invariant job.handledBy == old(job.handledBy) && job.messagesInfo == old(job.messagesInfo) && job.saves == old(job.saves)
      decreases retries
    {
      var pass := start - retries;
      var i := 0;
      while i < |mailers|
        invariant 0 <= i <= |mailers|
        invariant calls + RunFrom(n, passes, outcome, pass, i).calls == full.calls
        invariant RunFrom(n, passes, outcome, pass, i).winner == full.winner
        invariant job.handledBy == old(job.handledBy) && job.messagesInfo == old(job.messagesInfo) && job.saves == old(job.saves)
      {
        RunStep(n, passes, outcome, pass, i);
        AppendAssoc(calls, [Attempt(pass, i)], RunFrom(n, passes, outcome, pass, i + 1).calls);
        calls := calls + [Attempt(pass, i)];
        var o := outcome(pass, i);
        if o.Sent? {
          assert full.winner == Some(Attempt(pass, i)) && calls == full.calls;
          job.SetHandledBy(ClassName(mailers[i]));
          job.SetMessagesInfo(o.infos);
          job.Save();
          return;
        }
        // MailNotSentException, ConnectTimeout and any other exception: try the next mailer
        i := i + 1;
      }
      RunPassEnd(n, passes, outcome, pass);
      retries := retries - 1;
    }
    RunPassEnd(n, passes, outcome, start - retries);
    assert calls + [] == calls;
  }
}
