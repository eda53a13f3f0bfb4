/**
 * One batch over many hosts: prepare all of them, then submit wave after wave, and give every host exactly
 * one outcome.
 */
module Fleet {
  import opened Basics

  datatype Status = Undecided | Succeeded | Failed | Skipped | NotRun

  /** One answer to asking a host about an operation. */
  datatype Answer = QueryFailed | StillGoing | Ended(success: bool)

  /** A host's answer to the submission; answers are those to the later queries, of which lastPoll is the last in time. */
  datatype Reply = SubmitFailed | Noop | Accepted(answers: nat -> Answer, lastPoll: nat)

  /**
   * Everything a batch cannot know in advance: what the hosts answer, whether it is cancelled in the pause
   * after a wave, and the order in which the workers get to the hosts they are given.
   */
  datatype Hosts = Hosts(
    prepares: nat -> bool,
    replies: nat -> Reply,
    cancelled: nat -> bool,
    schedule: seq<nat> -> seq<nat>)

  datatype Request = Request(targets: nat, batchSize: int, pause: bool, allowPartial: bool, keepGoing: bool)

  datatype Event = Prepared(host: nat) | Submitted(host: nat, wave: nat)

  datatype Verdict = AllDone | Rejected | PreflightFailed | BatchFailed | Cancelled

  // ---- One host ----

  /** The first final answer within the time to wait; failed queries are only asked again. */
  function FirstEnd(answers: nat -> Answer, from: nat, last: nat): Option<bool>
    decreases last - from
  {
    if from > last then None
    else if answers(from).Ended? then Some(answers(from).success)
    else FirstEnd(answers, from + 1, last)
  }

  method WaitForOperation(answers: nat -> Answer, last: nat) returns (end: Option<bool>)
    ensures end == FirstEnd(answers, 0, last)
    ensures end.Some? <==> exists k :: 0 <= k <= last && answers(k).Ended?
  {
    var k := 0;
    while true
      invariant 0 <= k <= last
      invariant FirstEnd(answers, 0, last) == FirstEnd(answers, k, last)
      invariant forall j | 0 <= j < k :: !answers(j).Ended?
      decreases last - k
    {
      if answers(k).Ended? {
        return Some(answers(k).success);
      }
      if k == last {
        return None;
      }
      k := k + 1;
    }
  }

  function Outcome(reply: Reply): Status {
    match reply
    case SubmitFailed => Failed
    case Noop => Succeeded
    case Accepted(answers, last) => if FirstEnd(answers, 0, last) == Some(true) then Succeeded else Failed
  }

  method RunOne(reply: Reply) returns (status: Status)
    ensures status == Outcome(reply)
    ensures status.Succeeded? || status.Failed?
  {
    if reply.SubmitFailed? {
      return Failed;
    }
    if reply.Noop? {
      return Succeeded;
    }
    var end := WaitForOperation(reply.answers, reply.lastPoll);
    if end.None? || !end.value {
      return Failed;
    }
    return Succeeded;
  }

  // ---- The batch as a function ----

  function EffectiveSize(r: Request): int {
    if r.batchSize <= 0 then r.targets else r.batchSize
  }

  /** The prepared hosts among the first n, in target order. */
  function Ready(h: Hosts, n: nat): seq<nat> {
    if n == 0 then [] else Ready(h, n - 1) + if h.prepares(n - 1) then [n - 1] else []
  }

  predicate AnyFails(h: Hosts, wave: seq<nat>) {
    exists k :: 0 <= k < |wave| && Outcome(h.replies(wave[k])).Failed?
  }

  function Wave(r: Request, pending: seq<nat>): seq<nat>
    requires EffectiveSize(r) >= 1
  {
    pending[..Min(EffectiveSize(r), |pending|)]
  }

  /** Does the batch stop after this wave although hosts are pending? */
  predicate StopsAfter(r: Request, h: Hosts, wave: seq<nat>, number: nat) {
    (AnyFails(h, wave) && !r.keepGoing) || (r.pause && h.cancelled(number))
  }

  /** The hosts that are submitted, wave after wave. */
  function Submissions(r: Request, h: Hosts, pending: seq<nat>, number: nat): seq<nat>
    requires EffectiveSize(r) >= 1
    decreases |pending|
  {
    if pending == [] then []
    else
      var wave := Wave(r, pending);
      var rest := pending[|wave|..];
      wave + if rest != [] && StopsAfter(r, h, wave, number) then [] else Submissions(r, h, rest, number + 1)
  }

  /** No submission at all when a host is not ready and partial batches are not allowed. */
  predicate Starts(r: Request, h: Hosts) {
    r.allowPartial || forall i | 0 <= i < r.targets :: h.prepares(i)
  }

  function SubmittedHosts(r: Request, h: Hosts): seq<nat>
    requires EffectiveSize(r) >= 1
  {
    if Starts(r, h) then Submissions(r, h, Ready(h, r.targets), 0) else []
  }

  /** The one status of each host. */
  function StatusOf(r: Request, h: Hosts, i: nat): Status
    requires EffectiveSize(r) >= 1
  {
    if !h.prepares(i) then Skipped
    else if i in SubmittedHosts(r, h) then Outcome(h.replies(i))
    else NotRun
  }

  // ---- What the function promises ----

  lemma {:induction false} ReadyIs(h: Hosts, n: nat)
    ensures forall i: nat :: i in Ready(h, n) <==> i < n && h.prepares(i)
    ensures forall k, l | 0 <= k < l < |Ready(h, n)| :: Ready(h, n)[k] < Ready(h, n)[l]
  {
    if n > 0 {
      ReadyIs(h, n - 1);
      var init := Ready(h, n - 1);
      assert forall k | 0 <= k < |init| :: init[k] in init;
    }
  }

  /** Each wave is full except possibly the last, and only hosts in line are submitted, in their order. */
  lemma {:induction false} SubmissionsArePrefix(r: Request, h: Hosts, pending: seq<nat>, number: nat)
    requires EffectiveSize(r) >= 1
    ensures Submissions(r, h, pending, number) <= pending
    decreases |pending|
  {
    if pending != [] {
      var wave := Wave(r, pending);
      assert pending == wave + pending[|wave|..];
      SubmissionsArePrefix(r, h, pending[|wave|..], number + 1);
    }
  }

  /** The wave of the host at this position of the line. */
  function WaveOf(position: nat, size: nat): nat
    requires size >= 1
  {
    if position < size then 0 else 1 + WaveOf(position - size, size)
  }

  /** k and l are positions in the line. */
  lemma {:induction false} LaterPositionOnlyAfterSuccess(r: Request, h: Hosts, pending: seq<nat>, number: nat, k: nat, l: nat)
    requires EffectiveSize(r) >= 1
    requires k < |pending| && l < |Submissions(r, h, pending, number)|
    requires WaveOf(k, EffectiveSize(r)) < WaveOf(l, EffectiveSize(r))
    ensures k < |pending| && (r.keepGoing || Outcome(h.replies(pending[k])).Succeeded?)
    decreases |pending|
  {
    var size := EffectiveSize(r);
    WentOn(r, h, pending, number, l);
    if k < size {
      WaveSucceeded(r, h, Wave(r, pending), number, k);
    } else {
      assert pending[size..][k - size] == pending[k];
      LaterPositionOnlyAfterSuccess(r, h, pending[size..], number + 1, k - size, l - size);
    }
  }

  lemma WaveSucceeded(r: Request, h: Hosts, wave: seq<nat>, number: nat, k: nat)
    requires k < |wave| && !StopsAfter(r, h, wave, number)
    ensures r.keepGoing || Outcome(h.replies(wave[k])).Succeeded?
  {
    assert Outcome(h.replies(wave[k])).Succeeded? || Outcome(h.replies(wave[k])).Failed?;
  }

  /** A submission beyond the first wave means that the batch did not stop after it. */
  lemma WentOn(r: Request, h: Hosts, pending: seq<nat>, number: nat, l: nat)
    requires EffectiveSize(r) >= 1 && EffectiveSize(r) <= l < |Submissions(r, h, pending, number)|
    ensures |Wave(r, pending)| == EffectiveSize(r) <= |pending|
    ensures !StopsAfter(r, h, Wave(r, pending), number)
    ensures |Submissions(r, h, pending, number)| == EffectiveSize(r) + |Submissions(r, h, pending[EffectiveSize(r)..], number + 1)|
  {
    SubmissionsArePrefix(r, h, pending, number);
  }

  /** A batch that was not stopped submits every host that is ready. */
  lemma {:induction false} NothingLeftWithoutStop(r: Request, h: Hosts, pending: seq<nat>, number: nat)
    requires EffectiveSize(r) >= 1 && !r.pause
    requires r.keepGoing || forall k | 0 <= k < |pending| :: Outcome(h.replies(pending[k])).Succeeded?
    ensures Submissions(r, h, pending, number) == pending
    decreases |pending|
  {
    if pending != [] {
      var wave := Wave(r, pending);
      var rest := pending[|wave|..];
      assert pending == wave + rest;
      NothingLeftWithoutStop(r, h, rest, number + 1);
    }
  }

  // ---- Counting ----

  function Count(results: seq<Status>, s: Status): nat {
    if results == [] then 0 else (if results[0] == s then 1 else 0) + Count(results[1..], s)
  }

  /** With every host decided the four counts add up to the number of hosts. */
  lemma {:induction false} CountsAddUp(results: seq<Status>)
    requires Undecided !in results
    ensures Count(results, Succeeded) + Count(results, Failed) + Count(results, Skipped) + Count(results, NotRun) == |results|
  {
    if results != [] {
      assert results[0] in results;
      CountsAddUp(results[1..]);
    }
  }

  lemma {:induction false} CountIsPositive(results: seq<Status>, s: Status)
    ensures Count(results, s) > 0 <==> s in results
  {
    if results != [] {
      CountIsPositive(results[1..], s);
    }
  }

  method CountOf(results: array<Status>, s: Status) returns (n: nat)
    ensures n == Count(results[..], s)
  {
    n := 0;
    var i := results.Length;
    assert results[i..] == [];
    while i > 0
      invariant 0 <= i <= results.Length && n == Count(results[i..], s)
    {
      i := i - 1;
      assert results[i..][1..] == results[i + 1..];
      if results[i] == s {
        n := n + 1;
      }
    }
    assert results[0..] == results[..];
  }

  // ---- The batch as it runs ----

  /** How often the host is among the first n of the list. */
  function TimesInFirst(hosts: seq<nat>, n: nat, host: nat): nat
    requires n <= |hosts|
  {
    if n == 0 then 0 else TimesInFirst(hosts, n - 1, host) + if hosts[n - 1] == host then 1 else 0
  }

  function Times(hosts: seq<nat>, host: nat): nat {
    TimesInFirst(hosts, |hosts|, host)
  }

  lemma {:induction false} TimesIsMembership(hosts: seq<nat>, n: nat, host: nat)
    requires n <= |hosts|
    ensures TimesInFirst(hosts, n, host) > 0 <==> host in hosts[..n]
  {
    if n > 0 {
      TimesIsMembership(hosts, n - 1, host);
      assert hosts[..n] == hosts[..n - 1] + [hosts[n - 1]];
    }
  }

  /** The workers get to every host as often as they are given it, in any order. */
  ghost predicate AnyOrder(h: Hosts) {
    forall hosts: seq<nat>, host: nat :: Times(h.schedule(hosts), host) == Times(hosts, host)
  }

  type Fair = h: Hosts | AnyOrder(h) witness Hosts(_ => false, _ => Noop, _ => false, hosts => hosts)

  lemma OrderHasSameHosts(h: Fair, hosts: seq<nat>)
    ensures forall i :: i in h.schedule(hosts) <==> i in hosts
  {
    var order := h.schedule(hosts);
    assert order[..|order|] == order && hosts[..|hosts|] == hosts;
    forall i: nat
      ensures i in order <==> i in hosts
    {
      TimesIsMembership(order, |order|, i);
      TimesIsMembership(hosts, |hosts|, i);
      assert Times(order, i) == Times(hosts, i);
    }
  }

  function AllTargets(n: nat): (s: seq<nat>)
    ensures |s| == n && forall i | 0 <= i < n :: s[i] == i
  {
    seq(n, i => i)
  }

  /** Every host is asked once. */
  method PrepareAll(r: Request, h: Fair, results: array<Status>) returns (ghost log: seq<Event>)
    requires results.Length == r.targets
    modifies results
    ensures forall i | 0 <= i < r.targets :: results[i] == if h.prepares(i) then Undecided else Skipped
    ensures log == Preparations(h.schedule(AllTargets(r.targets)))
  {
    var order := h.schedule(AllTargets(r.targets));
    OrderHasSameHosts(h, AllTargets(r.targets));
    log := [];
    for k := 0 to |order|
      invariant forall i | 0 <= i < r.targets && i in order[..k] ::
                  results[i] == if h.prepares(i) then Undecided else Skipped
      invariant log == Preparations(order[..k])
    {
      assert order[k] in order;
      results[order[k]] := if h.prepares(order[k]) then Undecided else Skipped;
      log := log + [Prepared(order[k])];
      assert order[..k + 1] == order[..k] + [order[k]];
    }
    assert order[..|order|] == order;
    forall i | 0 <= i < r.targets
      ensures i in order
    {
      assert AllTargets(r.targets)[i] == i;
    }
  }

  /** Every host of the wave is submitted once. */
  method RunWave(h: Fair, results: array<Status>, wave: seq<nat>, ghost number: nat) returns (ghost log: seq<Event>)
    requires (forall k | 0 <= k < |wave| :: wave[k] < results.Length)
    modifies results
    ensures forall i | 0 <= i < results.Length ::
              results[i] == if i in wave then Outcome(h.replies(i)) else old(results[i])
    ensures log == WaveEvents(h.schedule(wave), number)
  {
    var order := h.schedule(wave);
    OrderHasSameHosts(h, wave);
    log := [];
    for k := 0 to |order|
      invariant forall i | 0 <= i < results.Length ::
                  results[i] == if i in order[..k] then Outcome(h.replies(i)) else old(results[i])
      invariant log == WaveEvents(order[..k], number)
    {
      assert order[k] in order;
      results[order[k]] := RunOne(h.replies(order[k]));
      log := log + [Submitted(order[k], number)];
      assert order[..k + 1] == order[..k] + [order[k]];
    }
    assert order[..|order|] == order;
  }

  method WaveFailed(results: array<Status>, wave: seq<nat>) returns (failed: bool)
    requires forall k | 0 <= k < |wave| :: wave[k] < results.Length
    ensures failed <==> exists k :: 0 <= k < |wave| && results[wave[k]].Failed?
  {
    failed := false;
    for k := 0 to |wave|
      invariant failed <==> exists j :: 0 <= j < k && results[wave[j]].Failed?
    {
      if results[wave[k]].Failed? {
        failed := true;
      }
    }
  }

  method MarkNotRun(results: array<Status>, hosts: seq<nat>)
    requires forall k | 0 <= k < |hosts| :: hosts[k] < results.Length
    modifies results
    ensures forall i | 0 <= i < results.Length :: results[i] == if i in hosts then NotRun else old(results[i])
  {
    for k := 0 to |hosts|
      invariant forall i | 0 <= i < results.Length :: results[i] == if i in hosts[..k] then NotRun else old(results[i])
    {
      results[hosts[k]] := NotRun;
      assert hosts[..k + 1] == hosts[..k] + [hosts[k]];
    }
    assert hosts[..|hosts|] == hosts;
  }

  // ---- The log of a batch ----

  function Preparations(order: seq<nat>): seq<Event> {
    seq(|order|, k requires 0 <= k < |order| => Prepared(order[k]))
  }

  function WaveEvents(order: seq<nat>, number: nat): seq<Event> {
    seq(|order|, k requires 0 <= k < |order| => Submitted(order[k], number))
  }

  /** What is left of the line after n waves. */
  function LeftAfter(r: Request, line: seq<nat>, n: nat): seq<nat>
    requires EffectiveSize(r) >= 1
  {
    if n == 0 then line
    else
      var left := LeftAfter(r, line, n - 1);
      left[|Wave(r, left)|..]
  }

  /** The submissions of the first n waves, wave after wave, each in the order of the workers. */
  function WavesLog(r: Request, h: Hosts, line: seq<nat>, n: nat): seq<Event>
    requires EffectiveSize(r) >= 1
  {
    if n == 0 then []
    else WavesLog(r, h, line, n - 1) + WaveEvents(h.schedule(Wave(r, LeftAfter(r, line, n - 1))), n - 1)
  }

  // ---- What the log says about each host ----

  /** Entries to count: the submissions of a host, or the questions to it. */
  datatype Pick = Submitting(host: nat) | Asking(host: nat)

  predicate Picks(p: Pick, e: Event) {
    match p
    case Submitting(host) => e.Submitted? && e.host == host
    case Asking(host) => e == Prepared(host)
  }

  /** How many of the first n entries p picks. */
  function CountOfFirst(log: seq<Event>, n: nat, p: Pick): nat
    requires n <= |log|
  {
    if n == 0 then 0 else CountOfFirst(log, n - 1, p) + if Picks(p, log[n - 1]) then 1 else 0
  }

  /** How often the host was submitted. */
  function SubmissionsTo(log: seq<Event>, host: nat): nat {
    CountOfFirst(log, |log|, Submitting(host))
  }

  /** How often it was asked whether it is ready. */
  function QuestionsTo(log: seq<Event>, host: nat): nat {
    CountOfFirst(log, |log|, Asking(host))
  }

  lemma {:induction false} CountConcat(a: seq<Event>, b: seq<Event>, n: nat, p: Pick)
    requires n <= |b|
    ensures CountOfFirst(a + b, |a| + n, p) == CountOfFirst(a, |a|, p) + CountOfFirst(b, n, p)
    decreases n
  {
    if n == 0 {
      CountInPrefix(a, b, |a|, p);
    } else {
      CountConcat(a, b, n - 1, p);
    }
  }

  lemma {:induction false} CountInPrefix(a: seq<Event>, b: seq<Event>, n: nat, p: Pick)
    requires n <= |a|
    ensures CountOfFirst(a + b, n, p) == CountOfFirst(a, n, p)
  {
    if n > 0 {
      CountInPrefix(a, b, n - 1, p);
    }
  }

  lemma CountsConcat(a: seq<Event>, b: seq<Event>, host: nat)
    ensures SubmissionsTo(a + b, host) == SubmissionsTo(a, host) + SubmissionsTo(b, host)
    ensures QuestionsTo(a + b, host) == QuestionsTo(a, host) + QuestionsTo(b, host)
  {
    CountConcat(a, b, |b|, Submitting(host));
    CountConcat(a, b, |b|, Asking(host));
  }

  lemma {:induction false} CountOfOrder(log: seq<Event>, order: seq<nat>, n: nat, host: nat, p: Pick)
    requires n <= |log| == |order|
    requires forall k | 0 <= k < |log| :: Picks(p, log[k]) <==> order[k] == host
    ensures CountOfFirst(log, n, p) == TimesInFirst(order, n, host)
  {
    if n > 0 {
      CountOfOrder(log, order, n - 1, host, p);
    }
  }

  lemma {:induction false} CountOfNone(log: seq<Event>, n: nat, p: Pick)
    requires n <= |log| && forall k | 0 <= k < |log| :: !Picks(p, log[k])
    ensures CountOfFirst(log, n, p) == 0
  {
    if n > 0 {
      CountOfNone(log, n - 1, p);
    }
  }

  lemma WaveCounts(h: Fair, hosts: seq<nat>, number: nat, host: nat)
    ensures SubmissionsTo(WaveEvents(h.schedule(hosts), number), host) == Times(hosts, host)
    ensures QuestionsTo(WaveEvents(h.schedule(hosts), number), host) == 0
  {
    var order := h.schedule(hosts);
    assert Times(order, host) == Times(hosts, host);
    CountOfOrder(WaveEvents(order, number), order, |order|, host, Submitting(host));
    CountOfNone(WaveEvents(order, number), |order|, Asking(host));
  }

  lemma QuestionCounts(h: Fair, hosts: seq<nat>, host: nat)
    ensures SubmissionsTo(Preparations(h.schedule(hosts)), host) == 0
    ensures QuestionsTo(Preparations(h.schedule(hosts)), host) == Times(hosts, host)
  {
    var order := h.schedule(hosts);
    assert Times(order, host) == Times(hosts, host);
    CountOfNone(Preparations(order), |order|, Submitting(host));
    CountOfOrder(Preparations(order), order, |order|, host, Asking(host));
  }

  lemma WaveAdds(h: Fair, wave: seq<nat>, log: seq<Event>, number: nat, host: nat)
    ensures SubmissionsTo(log + WaveEvents(h.schedule(wave), number), host) == SubmissionsTo(log, host) + Times(wave, host)
    ensures QuestionsTo(log + WaveEvents(h.schedule(wave), number), host) == QuestionsTo(log, host)
  {
    WaveCounts(h, wave, number, host);
    CountsConcat(log, WaveEvents(h.schedule(wave), number), host);
  }

  lemma {:induction false} DistinctCount(line: seq<nat>, n: nat, host: nat)
    requires n <= |line| && forall k, l | 0 <= k < l < |line| :: line[k] < line[l]
    ensures TimesInFirst(line, n, host) == if exists k :: 0 <= k < n && line[k] == host then 1 else 0
  {
    if n > 0 {
      DistinctCount(line, n - 1, host);
    }
  }

  /** The first position of a wave, and the waves of the positions from there on. */
  function FirstOf(number: nat, size: nat): nat {
    if number == 0 then 0 else FirstOf(number - 1, size) + size
  }

  lemma {:induction false} WaveOfPosition(number: nat, offset: nat, size: nat)
    requires size >= 1 && offset < size
    ensures WaveOf(FirstOf(number, size) + offset, size) == number
  {
    if number > 0 {
      WaveOfPosition(number - 1, offset, size);
    }
  }

  lemma {:induction false} LeftIs(r: Request, line: seq<nat>, n: nat)
    requires EffectiveSize(r) >= 1
    ensures LeftAfter(r, line, n) == line[Min(FirstOf(n, EffectiveSize(r)), |line|)..]
  {
    if n > 0 {
      LeftIs(r, line, n - 1);
    }
  }

  /** How many hosts of the line have been submitted after n waves. */
  function SubmittedAfter(r: Request, line: seq<nat>, n: nat): (count: nat)
    requires EffectiveSize(r) >= 1
    ensures count <= |line|
  {
    Min(FirstOf(n, EffectiveSize(r)), |line|)
  }

  lemma {:induction false} TimesInSlice(line: seq<nat>, lo: nat, hi: nat, host: nat)
    requires lo <= hi <= |line|
    ensures TimesInFirst(line, lo, host) + TimesInFirst(line[lo..hi], hi - lo, host) == TimesInFirst(line, hi, host)
    decreases hi
  {
    if lo < hi {
      TimesInSlice(line, lo, hi - 1, host);
      assert line[lo..hi] == line[lo..hi - 1] + [line[hi - 1]];
      TimesInPrefix(line[lo..hi - 1], [line[hi - 1]], hi - 1 - lo, host);
    }
  }

  lemma {:induction false} TimesInPrefix(a: seq<nat>, b: seq<nat>, n: nat, host: nat)
    requires n <= |a|
    ensures TimesInFirst(a + b, n, host) == TimesInFirst(a, n, host)
  {
    if n > 0 {
      TimesInPrefix(a, b, n - 1, host);
    }
  }

  lemma WaveIsSlice(r: Request, line: seq<nat>, n: nat)
    requires EffectiveSize(r) >= 1
    ensures SubmittedAfter(r, line, n) <= SubmittedAfter(r, line, n + 1)
    ensures Wave(r, LeftAfter(r, line, n)) == line[SubmittedAfter(r, line, n)..SubmittedAfter(r, line, n + 1)]
  {
    LeftIs(r, line, n);
  }

  /** What wave n adds to the log, by the positions it takes up in the line. */
  lemma OneMoreWave(h: Fair, line: seq<nat>, lo: nat, hi: nat, log: seq<Event>, number: nat, host: nat)
    requires lo <= hi <= |line|
    ensures SubmissionsTo(log + WaveEvents(h.schedule(line[lo..hi]), number), host) ==
            SubmissionsTo(log, host) + TimesInFirst(line, hi, host) - TimesInFirst(line, lo, host)
    ensures QuestionsTo(log + WaveEvents(h.schedule(line[lo..hi]), number), host) == QuestionsTo(log, host)
  {
    WaveAdds(h, line[lo..hi], log, number, host);
    TimesInSlice(line, lo, hi, host);
  }

  lemma OneMoreLog(r: Request, h: Fair, line: seq<nat>, n: nat)
    requires EffectiveSize(r) >= 1 && n > 0
    ensures SubmittedAfter(r, line, n - 1) <= SubmittedAfter(r, line, n)
    ensures WavesLog(r, h, line, n) ==
            WavesLog(r, h, line, n - 1)
            + WaveEvents(h.schedule(line[SubmittedAfter(r, line, n - 1)..SubmittedAfter(r, line, n)]), n - 1)
  {
    WaveIsSlice(r, line, n - 1);
  }

  /** A host is submitted in the first n waves as often as it is among the first so many of the line. */
  lemma {:induction false} WavesSubmit(r: Request, h: Fair, line: seq<nat>, n: nat, log: seq<Event>, host: nat)
    requires EffectiveSize(r) >= 1 && log == WavesLog(r, h, line, n)
    ensures SubmissionsTo(log, host) == TimesInFirst(line, SubmittedAfter(r, line, n), host)
    ensures QuestionsTo(log, host) == 0
    decreases n
  {
    if n == 0 {
      assert log == [];
    } else {
      var before, lo, hi := WavesLog(r, h, line, n - 1), SubmittedAfter(r, line, n - 1), SubmittedAfter(r, line, n);
      WavesSubmit(r, h, line, n - 1, before, host);
      OneMoreLog(r, h, line, n);
      OneMoreWave(h, line, lo, hi, before, n - 1, host);
    }
  }

  /** The host stands at some position of the line that belongs to this wave. */
  ghost predicate InWave(r: Request, line: seq<nat>, host: nat, wave: nat)
    requires EffectiveSize(r) >= 1
  {
    exists k :: 0 <= k < |line| && line[k] == host && WaveOf(k, EffectiveSize(r)) == wave
  }

  lemma {:induction false} EntriesNameTheWave(r: Request, h: Fair, line: seq<nat>, n: nat, host: nat, wave: nat)
    requires EffectiveSize(r) >= 1 && Submitted(host, wave) in WavesLog(r, h, line, n)
    ensures InWave(r, line, host, wave)
  {
    if n > 0 {
      var left := LeftAfter(r, line, n - 1);
      var current := Wave(r, left);
      var events := WaveEvents(h.schedule(current), n - 1);
      if Submitted(host, wave) in events {
        var e :| 0 <= e < |events| && events[e] == Submitted(host, wave);
        OrderHasSameHosts(h, current);
        assert h.schedule(current)[e] in h.schedule(current);
        var k :| 0 <= k < |current| && current[k] == host;
        LeftIs(r, line, n - 1);
        WaveOfPosition(n - 1, k, EffectiveSize(r));
        assert line[FirstOf(n - 1, EffectiveSize(r)) + k] == host;
      } else {
        EntriesNameTheWave(r, h, line, n - 1, host, wave);
      }
    }
  }

  /** What the submissions in the log of a batch are. */
  ghost predicate LogTells(r: Request, h: Hosts, log: seq<Event>)
    requires EffectiveSize(r) >= 1
  {
    && (forall host: nat :: SubmissionsTo(log, host) == if host in SubmittedHosts(r, h) then 1 else 0)
    && (forall host: nat, wave: nat | Submitted(host, wave) in log :: InWave(r, SubmittedHosts(r, h), host, wave))
    && (forall host: nat :: QuestionsTo(log, host) == if host < r.targets then 1 else 0)
  }

  lemma {:induction false} EntryIsCounted(log: seq<Event>, n: nat, p: Pick)
    requires n <= |log| && exists k :: 0 <= k < n && Picks(p, log[k])
    ensures CountOfFirst(log, n, p) > 0
  {
    if !Picks(p, log[n - 1]) {
      EntryIsCounted(log, n - 1, p);
    }
  }

  /** A host in the submitted part of the line has one position in the line. */
  lemma SubmittedPosition(r: Request, line: seq<nat>, submitted: seq<nat>, host: nat, wave: nat)
    requires EffectiveSize(r) >= 1 && submitted <= line && host in submitted
    requires forall k, l | 0 <= k < l < |line| :: line[k] < line[l]
    requires InWave(r, line, host, wave)
    ensures InWave(r, submitted, host, wave)
  {
    var k :| 0 <= k < |line| && line[k] == host && WaveOf(k, EffectiveSize(r)) == wave;
    var l :| 0 <= l < |submitted| && submitted[l] == host;
    assert line[l] == host;
    assert l == k;
  }

  /** The log is that of a batch: the questions, then this many waves, after which the submitted hosts have left the line. */
  ghost predicate LogOf(r: Request, h: Hosts, log: seq<Event>, waves: nat) {
    && r.targets > 0
    && log == Preparations(h.schedule(AllTargets(r.targets))) + WavesLog(r, h, Ready(h, r.targets), waves)
    && SubmittedHosts(r, h) + LeftAfter(r, Ready(h, r.targets), waves) == Ready(h, r.targets)
  }

  lemma SubmissionsAreCounted(r: Request, h: Fair, line: seq<nat>, submitted: seq<nat>, waves: nat, host: nat)
    requires EffectiveSize(r) >= 1 && submitted + LeftAfter(r, line, waves) == line
    requires forall k, l | 0 <= k < l < |line| :: line[k] < line[l]
    ensures SubmissionsTo(WavesLog(r, h, line, waves), host) == if host in submitted then 1 else 0
  {
    WavesSubmit(r, h, line, waves, WavesLog(r, h, line, waves), host);
    LeftIs(r, line, waves);
    assert |submitted| == SubmittedAfter(r, line, waves);
    DistinctCount(line, |submitted|, host);
    assert forall k | 0 <= k < |submitted| :: submitted[k] == line[k];
  }

  lemma HostsAreCounted(r: Request, h: Fair, log: seq<Event>, waves: nat, host: nat)
    requires LogOf(r, h, log, waves)
    ensures SubmissionsTo(log, host) == if host in SubmittedHosts(r, h) then 1 else 0
    ensures QuestionsTo(log, host) == if host < r.targets then 1 else 0
  {
    var asked := AllTargets(r.targets);
    ReadyIs(h, r.targets);
    SubmissionsAreCounted(r, h, Ready(h, r.targets), SubmittedHosts(r, h), waves, host);
    WavesSubmit(r, h, Ready(h, r.targets), waves, WavesLog(r, h, Ready(h, r.targets), waves), host);
    QuestionCounts(h, asked, host);
    CountsConcat(Preparations(h.schedule(asked)), WavesLog(r, h, Ready(h, r.targets), waves), host);
    DistinctCount(asked, |asked|, host);
    assert host < r.targets ==> asked[host] == host;
  }

  lemma EntryTellsWave(r: Request, h: Fair, log: seq<Event>, waves: nat, host: nat, wave: nat)
    requires LogOf(r, h, log, waves) && Submitted(host, wave) in log
    ensures InWave(r, SubmittedHosts(r, h), host, wave)
  {
    var line := Ready(h, r.targets);
    HostsAreCounted(r, h, log, waves, host);
    EntryIsCounted(log, |log|, Submitting(host));
    EntriesNameTheWave(r, h, line, waves, host, wave);
    ReadyIs(h, r.targets);
    SubmittedPosition(r, line, SubmittedHosts(r, h), host, wave);
  }

  /**
   * Every submitted host has exactly one submission in the log, with the number of the wave its position in line
   * gives; no other host has any; and every host was asked once.
   */
  lemma LogIsTelling(r: Request, h: Fair, log: seq<Event>, waves: nat)
    requires LogOf(r, h, log, waves)
    ensures LogTells(r, h, log)
  {
    forall host: nat
      ensures SubmissionsTo(log, host) == if host in SubmittedHosts(r, h) then 1 else 0
      ensures QuestionsTo(log, host) == if host < r.targets then 1 else 0
    {
      HostsAreCounted(r, h, log, waves, host);
    }
    forall host: nat, wave: nat | Submitted(host, wave) in log
      ensures InWave(r, SubmittedHosts(r, h), host, wave)
    {
      EntryTellsWave(r, h, log, waves, host, wave);
    }
  }

  /** A later wave is only submitted when no host submitted in an earlier one failed, or the batch is to keep going. */
  lemma LaterWaveOnlyAfterSuccess(r: Request, h: Hosts, log: seq<Event>, host: nat, wave: nat, later: nat, laterWave: nat)
    requires EffectiveSize(r) >= 1 && LogTells(r, h, log)
    requires Submitted(host, wave) in log && Submitted(later, laterWave) in log && wave < laterWave
    ensures r.keepGoing || Outcome(h.replies(host)).Succeeded?
  {
    var line, submitted := Ready(h, r.targets), SubmittedHosts(r, h);
    var k :| 0 <= k < |submitted| && submitted[k] == host && WaveOf(k, EffectiveSize(r)) == wave;
    var l :| 0 <= l < |submitted| && submitted[l] == later && WaveOf(l, EffectiveSize(r)) == laterWave;
    SubmissionsArePrefix(r, h, line, 0);
    LaterPositionOnlyAfterSuccess(r, h, line, 0, k, l);
  }

  /** What a batch reports. */
  datatype Report = Report(succeeded: nat, failed: nat, skipped: nat, notRun: nat, stoppedEarly: bool)

  predicate ReportOf(report: Report, results: seq<Status>) {
    && report.succeeded == Count(results, Succeeded)
    && report.failed == Count(results, Failed)
    && report.skipped == Count(results, Skipped)
    && report.notRun == Count(results, NotRun)
  }

  method Counted(results: array<Status>, stoppedEarly: bool) returns (report: Report)
    ensures ReportOf(report, results[..]) && report.stoppedEarly == stoppedEarly
  {
    var succeeded := CountOf(results, Succeeded);
    var failed := CountOf(results, Failed);
    var skipped := CountOf(results, Skipped);
    var notRun := CountOf(results, NotRun);
    report := Report(succeeded, failed, skipped, notRun, stoppedEarly);
  }

  /** The table while waves are running: done hosts have their outcome, hosts in line none yet. */
  ghost predicate Halfway(r: Request, h: Hosts, results: seq<Status>, done: seq<nat>) {
    && |results| == r.targets
    && forall i | 0 <= i < r.targets ::
         results[i] == if !h.prepares(i) then Skipped else if i in done then Outcome(h.replies(i)) else Undecided
  }

  lemma LineSplits(h: Hosts, n: nat, done: seq<nat>, pending: seq<nat>)
    requires Ready(h, n) == done + pending
    ensures forall i: nat | i < n && h.prepares(i) :: i in done || i in pending
    ensures forall i | i in done + pending :: i < n && h.prepares(i)
    ensures forall i | i in pending :: i !in done
    ensures forall k | 0 <= k < |pending| :: pending[k] < n
  {
    var line := Ready(h, n);
    ReadyIs(h, n);
    forall i: nat | i < n && h.prepares(i)
      ensures i in done || i in pending
    {
      assert i in line;
    }
    forall i | i in pending
      ensures i !in done
    {
      var k :| 0 <= k < |pending| && pending[k] == i;
      assert line[|done| + k] == i;
      forall j | 0 <= j < |done|
        ensures done[j] != i
      {
        assert line[j] == done[j];
      }
    }
    forall k | 0 <= k < |pending|
      ensures pending[k] < n
    {
      assert line[|done| + k] in line;
    }
  }

  /** One wave: runs it and says whether a host of it failed. */
  method NextWave(r: Request, h: Fair, results: array<Status>, pending: seq<nat>, ghost done: seq<nat>, ghost number: nat)
    returns (failed: bool, ghost log: seq<Event>)
    requires EffectiveSize(r) >= 1 && pending != []
    requires Ready(h, r.targets) == done + pending && Halfway(r, h, results[..], done)
    modifies results
    ensures Halfway(r, h, results[..], done + Wave(r, pending))
    ensures failed <==> AnyFails(h, Wave(r, pending))
    ensures log == WaveEvents(h.schedule(Wave(r, pending)), number)
  {
    LineSplits(h, r.targets, done, pending);
    var wave := Wave(r, pending);
    forall i | i in wave
      ensures i in pending
    {
    }
    assert forall k | 0 <= k < |wave| :: wave[k] == pending[k];
    log := RunWave(h, results, wave, number);
    forall i | 0 <= i < r.targets
      ensures results[i] == if !h.prepares(i) then Skipped else if i in done + wave then Outcome(h.replies(i)) else Undecided
    {
      assert old(results[..])[i] == old(results[i]);
      if i in wave {
        assert i in done + pending;
      }
    }
    failed := WaveFailed(results, wave);
    forall k | 0 <= k < |wave|
      ensures results[wave[k]] == Outcome(h.replies(wave[k]))
    {
      assert wave[k] in wave;
    }
  }

  /** The hosts that are still in line get their outcome: not run. */
  method GiveUp(r: Request, h: Hosts, results: array<Status>, pending: seq<nat>, ghost done: seq<nat>)
    requires EffectiveSize(r) >= 1
    requires Ready(h, r.targets) == done + pending && Halfway(r, h, results[..], done)
    modifies results
    ensures results.Length == r.targets
    ensures done == SubmittedHosts(r, h) ==> forall i | 0 <= i < r.targets :: results[i] == StatusOf(r, h, i)
  {
    LineSplits(h, r.targets, done, pending);
    MarkNotRun(results, pending);
    forall i | 0 <= i < r.targets
      ensures done == SubmittedHosts(r, h) ==> results[i] == StatusOf(r, h, i)
    {
      assert old(results[..])[i] == old(results[i]);
      if i in pending {
        assert i in done + pending;
      }
    }
  }

  method ReadyHosts(results: array<Status>, ghost r: Request, ghost h: Hosts) returns (pending: seq<nat>, blocked: nat)
    requires Halfway(r, h, results[..], [])
    ensures pending == Ready(h, r.targets)
    ensures blocked == 0 <==> forall i | 0 <= i < r.targets :: h.prepares(i)
  {
    pending, blocked := [], 0;
    for i := 0 to results.Length
      invariant pending == Ready(h, i)
      invariant blocked == 0 <==> forall j | 0 <= j < i :: h.prepares(j)
    {
      assert results[..][i] == results[i];
      if results[i].Skipped? {
        blocked := blocked + 1;
      } else {
        pending := pending + [i];
      }
    }
  }

  /** After number waves done hosts have been submitted and pending ones are left. */
  ghost predicate InLine(r: Request, h: Hosts, done: seq<nat>, pending: seq<nat>, number: nat)
    requires EffectiveSize(r) >= 1
  {
    && Ready(h, r.targets) == done + pending
    && pending == LeftAfter(r, Ready(h, r.targets), number)
    && SubmittedHosts(r, h) == done + Submissions(r, h, pending, number)
  }

  /** The batch has been given up with pending hosts left after number waves. */
  ghost predicate Stopped(r: Request, h: Hosts, done: seq<nat>, pending: seq<nat>, number: nat)
    requires EffectiveSize(r) >= 1
  {
    && Ready(h, r.targets) == done + pending
    && pending == LeftAfter(r, Ready(h, r.targets), number)
    && SubmittedHosts(r, h) == done && pending != []
  }

  lemma LineMoves(r: Request, h: Hosts, done: seq<nat>, pending: seq<nat>, number: nat)
    requires EffectiveSize(r) >= 1 && InLine(r, h, done, pending, number) && pending != []
    ensures var wave := Wave(r, pending);
            var rest := pending[|wave|..];
            if rest != [] && StopsAfter(r, h, wave, number) then Stopped(r, h, done + wave, rest, number + 1)
            else InLine(r, h, done + wave, rest, number + 1)
  {
    var wave := Wave(r, pending);
    var rest := pending[|wave|..];
    Regroup(done, wave, rest);
    assert pending == wave + rest;
    assert LeftAfter(r, Ready(h, r.targets), number + 1) == rest;
    if rest != [] && StopsAfter(r, h, wave, number) {
      Regroup(done, wave, []);
    } else {
      Regroup(done, wave, Submissions(r, h, rest, number + 1));
    }
  }

  lemma Regroup(a: seq<nat>, b: seq<nat>, c: seq<nat>)
    ensures a + (b + c) == (a + b) + c
    ensures (a + b) + [] == a + b
  {
  }

  /** Runs the waves. */
  method RunWaves(r: Request, h: Fair, results: array<Status>, ready: seq<nat>)
    returns (stoppedEarly: bool, cancelled: bool, ghost log: seq<Event>, ghost waves: nat)
    requires EffectiveSize(r) >= 1 && Starts(r, h)
    requires ready == Ready(h, r.targets) && Halfway(r, h, results[..], [])
    modifies results
    ensures results.Length == r.targets && forall i | 0 <= i < r.targets :: results[i] == StatusOf(r, h, i)
    ensures log == WavesLog(r, h, ready, waves)
    ensures SubmittedHosts(r, h) + LeftAfter(r, ready, waves) == ready
    ensures stoppedEarly || cancelled <==> SubmittedHosts(r, h) != ready
    ensures stoppedEarly ==> AnyFails(h, SubmittedHosts(r, h))
  {
    var pending := ready;
    ghost var done: seq<nat> := [];
    stoppedEarly, cancelled, log := false, false, [];
    var number := 0;
    while pending != [] && !stoppedEarly && !cancelled
      invariant if stoppedEarly || cancelled then Stopped(r, h, done, pending, number) else InLine(r, h, done, pending, number)
      invariant stoppedEarly ==> AnyFails(h, done)
      invariant Halfway(r, h, results[..], done)
      invariant log == WavesLog(r, h, ready, number)
      decreases |pending|
    {
      ghost var wave, events := Wave(r, pending), [];
      pending, stoppedEarly, cancelled, events := OneWave(r, h, results, pending, done, number);
      log, done, number := log + events, done + wave, number + 1;
    }
    waves := number;
    GiveUp(r, h, results, pending, done);
  }

  /** Runs the next wave, and decides whether the hosts behind it still get their turn. */
  method OneWave(r: Request, h: Fair, results: array<Status>, pending: seq<nat>, ghost done: seq<nat>, number: nat)
    returns (rest: seq<nat>, stoppedEarly: bool, cancelled: bool, ghost log: seq<Event>)
    requires EffectiveSize(r) >= 1 && pending != []
    requires InLine(r, h, done, pending, number) && Halfway(r, h, results[..], done)
    modifies results
    ensures |rest| < |pending|
    ensures Halfway(r, h, results[..], done + Wave(r, pending))
    ensures if stoppedEarly || cancelled then Stopped(r, h, done + Wave(r, pending), rest, number + 1)
            else InLine(r, h, done + Wave(r, pending), rest, number + 1)
    ensures stoppedEarly ==> AnyFails(h, done + Wave(r, pending))
    ensures log == WaveEvents(h.schedule(Wave(r, pending)), number)
  {
    LineMoves(r, h, done, pending, number);
    var wave := Wave(r, pending);
    var failed;
    failed, log := NextWave(r, h, results, pending, done, number);
    rest, stoppedEarly, cancelled := pending[|wave|..], false, false;
    if failed && !r.keepGoing && rest != [] {
      stoppedEarly := true;
      FailsInLonger(h, done, wave);
    } else if rest != [] && r.pause && h.cancelled(number) {
      cancelled := true;
    }
  }

  lemma FailsInLonger(h: Hosts, done: seq<nat>, wave: seq<nat>)
    requires AnyFails(h, wave)
    ensures AnyFails(h, done + wave)
  {
    var k :| 0 <= k < |wave| && Outcome(h.replies(wave[k])).Failed?;
    assert (done + wave)[|done| + k] == wave[k];
  }

  /** A submitted host that failed is counted as failed. */
  lemma FailureIsCounted(r: Request, h: Hosts, results: seq<Status>)
    requires EffectiveSize(r) >= 1 && |results| == r.targets
    requires forall i | 0 <= i < r.targets :: results[i] == StatusOf(r, h, i)
    requires Starts(r, h) && AnyFails(h, SubmittedHosts(r, h))
    ensures Count(results, Failed) > 0
  {
    var line := SubmittedHosts(r, h);
    var k :| 0 <= k < |line| && Outcome(h.replies(line[k])).Failed?;
    SubmissionsArePrefix(r, h, Ready(h, r.targets), 0);
    ReadyIs(h, r.targets);
    assert line[k] in line && line[k] in Ready(h, r.targets);
    assert results[line[k]].Failed?;
    CountIsPositive(results, Failed);
  }

  /**
   * Runs a batch. log is history. Every host ends with exactly the one status the function gives it, is asked once
   * and is submitted at most once, in the wave of its position in line; nothing is submitted before every host was
   * asked, and nothing at all when the batch does not start.
   */
  method Run(r: Request, h: Fair)
    returns (results: array<Status>, report: Report, verdict: Verdict, ghost log: seq<Event>, ghost waves: nat)
    ensures fresh(results) && results.Length == r.targets
    ensures verdict.Rejected? <==> r.targets == 0
    ensures r.targets > 0 ==> forall i | 0 <= i < r.targets :: results[i] == StatusOf(r, h, i)
    ensures ReportOf(report, results[..])
    ensures r.targets > 0 ==> report.succeeded + report.failed + report.skipped + report.notRun == r.targets
    ensures r.targets > 0 ==> LogOf(r, h, log, waves) && LogTells(r, h, log)
    ensures r.targets > 0 && !Starts(r, h) ==> verdict.PreflightFailed? && waves == 0
    ensures r.targets > 0 && Starts(r, h) ==>
              (verdict.AllDone? || verdict.BatchFailed? || verdict.Cancelled?)
              && (verdict.AllDone? ==> report.failed == 0 && SubmittedHosts(r, h) == Ready(h, r.targets))
              && (verdict.BatchFailed? ==> report.failed > 0)
  {
    results := new Status[r.targets](_ => Undecided);
    log, waves := [], 0;
    if r.targets == 0 {
      report := Counted(results, false);
      return results, report, Rejected, log, waves;
    }
    log := PrepareAll(r, h, results);
    var ready, blocked := ReadyHosts(results, r, h);
    if blocked > 0 && !r.allowPartial {
      assert ready == [] + ready;
      GiveUp(r, h, results, ready, []);
      report := Finished(r, h, results, false);
      assert log == log + WavesLog(r, h, ready, 0);
      LogIsTelling(r, h, log, 0);
      return results, report, PreflightFailed, log, 0;
    }
    var stopped, cancelled;
    ghost var submissions: seq<Event>;
    stopped, cancelled, submissions, waves := RunWaves(r, h, results, ready);
    log := log + submissions;
    LogIsTelling(r, h, log, waves);
    report := Finished(r, h, results, stopped);
    if cancelled {
      verdict := Cancelled;
    } else if report.failed > 0 {
      verdict := Verdict.BatchFailed;
    } else {
      verdict := AllDone;
    }
    if stopped {
      FailureIsCounted(r, h, results[..]);
    }
  }

  /** The counts, taken once on the way out. */
  method Finished(ghost r: Request, ghost h: Hosts, results: array<Status>, stoppedEarly: bool) returns (report: Report)
    requires EffectiveSize(r) >= 1 && results.Length == r.targets
    requires forall i | 0 <= i < r.targets :: results[i] == StatusOf(r, h, i)
    ensures ReportOf(report, results[..]) && report.stoppedEarly == stoppedEarly
    ensures report.succeeded + report.failed + report.skipped + report.notRun == r.targets
  {
    report := Counted(results, stoppedEarly);
    forall i | 0 <= i < r.targets
      ensures results[..][i] != Undecided
    {
      assert results[i] == StatusOf(r, h, i);
    }
    CountsAddUp(results[..]);
  }
}
