/** With a strict server: which files some run of downloads still installs. A file whose partial is
complete blocks itself and every file after it. */
module DownloadReach {
  import opened Prelude
  import opened Download
  import opened DownloadSafety

  // ---------- A blocked file ----------

  /** File j is missing, its partial is this complete one, and no download gets past it. */
  ghost predicate Blocked(a: Artifact, upstream: Upstream, s: State, j: nat, partial: Bytes)
    requires j < |a|
  {
    && Lookup(s.partials, a[j].name) == Some(partial) && a[j].name !in s.files
    && |partial| > 0 && |partial| >= |upstream(a[j].name)|
    && (s.task.Next? ==> s.task.index <= j)
    && (s.task.Streaming? ==> s.task.index < j)
  }

  lemma BlockedOpen(a: Artifact, upstream: Upstream, s: State, j: nat, partial: Bytes, r: Response)
    requires DistinctNames(a) && j < |a| && Blocked(a, upstream, s, j, partial)
    requires StrictEvent(a, upstream, s, Open(r))
    ensures var t := Step(a, s, Open(r)); Blocked(a, upstream, t, j, partial) && t.files == s.files
  {
    if s.task.Next? && s.task.index < j { assert a[s.task.index].name != a[j].name; }
  }

  lemma BlockedClose(a: Artifact, upstream: Upstream, s: State, j: nat, partial: Bytes, i: nat)
    requires DistinctNames(a) && j <= i < |a| && Blocked(a, upstream, s, j, partial) && a[i].name !in s.files
    ensures var t := Step(a, s, Close); Blocked(a, upstream, t, j, partial) && a[i].name !in t.files
  {
    if CanStream(a, s) {
      assert a[s.task.index].name != a[j].name && a[s.task.index].name != a[i].name;
    }
  }

  lemma BlockedStep(a: Artifact, upstream: Upstream, s: State, j: nat, partial: Bytes, i: nat, e: Event)
    requires DistinctNames(a) && j <= i < |a| && Blocked(a, upstream, s, j, partial) && a[i].name !in s.files
    requires Downloads(e) && StrictEvent(a, upstream, s, e)
    ensures var t := Step(a, s, e); Blocked(a, upstream, t, j, partial) && a[i].name !in t.files
  {
    match e
    case Open(r) => BlockedOpen(a, upstream, s, j, partial, r);
    case Close => BlockedClose(a, upstream, s, j, partial, i);
    case Chunk(size) => if CanStream(a, s) { assert a[s.task.index].name != a[j].name; }
    case _ =>
  }

  ghost predicate OnlyDownloads(events: seq<Event>) {
    forall i :: 0 <= i < |events| ==> Downloads(events[i])
  }

  lemma {:induction false} BlockedRun(a: Artifact, upstream: Upstream, s: State, j: nat, partial: Bytes, i: nat,
                                      events: seq<Event>)
    requires DistinctNames(a) && j <= i < |a| && Blocked(a, upstream, s, j, partial) && a[i].name !in s.files
    requires OnlyDownloads(events) && StrictRun(a, upstream, s, events)
    ensures a[i].name !in Run(a, s, events).files
    decreases |events|
  {
    if events != [] {
      assert Downloads(events[0]);
      BlockedStep(a, upstream, s, j, partial, i, events[0]);
      BlockedRun(a, upstream, Step(a, s, events[0]), j, partial, i, events[1..]);
    }
  }

  // ---------- A way through ----------

  /** What a strict server answers at this offset. */
  function StrictAnswer(content: Bytes, offset: nat): Response {
    if offset == 0 then Response(200, None, content)
    else if offset < |content| then Response(206, None, content[offset..])
    else Response(416, None, [])
  }

  /** The events that get the download past the file it is about to take. */
  function Past(a: Artifact, upstream: Upstream, s: State): seq<Event>
    requires s.task.Next? && s.task.index < |a|
  {
    var name := a[s.task.index].name;
    if name in s.files then [Skip] else Attempt(StrictAnswer(upstream(name), Offset(s.partials, name)))
  }

  lemma {:induction false} StrictAppends(a: Artifact, upstream: Upstream, s: State, xs: seq<Event>, ys: seq<Event>)
    requires StrictRun(a, upstream, s, xs) && StrictRun(a, upstream, Run(a, s, xs), ys)
    ensures StrictRun(a, upstream, s, xs + ys)
    decreases |xs|
  {
    if xs == [] {
      assert xs + ys == ys;
    } else {
      assert (xs + ys)[1..] == xs[1..] + ys;
      StrictAppends(a, upstream, Step(a, s, xs[0]), xs[1..], ys);
    }
  }

  lemma AttemptIsStrict(a: Artifact, upstream: Upstream, s: State, r: Response)
    requires StrictEvent(a, upstream, s, Open(r))
    ensures StrictRun(a, upstream, s, Attempt(r)) && OnlyDownloads(Attempt(r))
  {
    var events := Attempt(r);
    assert events[1..] == [Chunk(|r.body|), Close] && events[1..][1..] == [Close] && events[1..][1..][1..] == [];
    var s1 := Step(a, s, Open(r));
    var s2 := Step(a, s1, Chunk(|r.body|));
    assert StrictRun(a, upstream, s2, [Close]);
  }

  /** Everything the upstream serves matches its pin. */
  ghost predicate Pins(a: Artifact, upstream: Upstream) {
    forall i :: 0 <= i < |a| ==> Sha256(upstream(a[i].name)) == a[i].pin
  }

  /** What the way through needs before each file, and keeps. */
  ghost predicate Ready(a: Artifact, upstream: Upstream, s: State, i: nat) {
    && PartialsOk(a, upstream, s) && i < |a|
    && forall j :: 0 <= j <= i ==> Passable(a, upstream, s, j)
  }

  ghost predicate Passable(a: Artifact, upstream: Upstream, s: State, j: nat)
    requires j < |a|
  {
    a[j].name in s.files || !Complete(upstream, s, a[j].name)
  }

  lemma SkipPast(a: Artifact, upstream: Upstream, s: State, i: nat)
    requires s.task.Next? && s.task.index <= i && Ready(a, upstream, s, i) && a[s.task.index].name in s.files
    ensures var t := Run(a, s, [Skip]);
      && StrictRun(a, upstream, s, [Skip]) && OnlyDownloads([Skip]) && Ready(a, upstream, t, i)
      && t.task == Next(s.task.index + 1) && a[s.task.index].name in t.files
  {
    var t := Step(a, s, Skip);
    assert [Skip][1..] == [] && Run(a, t, []) == t;
    forall j | 0 <= j <= i ensures Passable(a, upstream, t, j) { assert Passable(a, upstream, s, j); }
  }

  lemma StrictAnswerIsStrict(content: Bytes, offset: nat)
    ensures Strict(content, offset, StrictAnswer(content, offset))
  {
  }

  lemma AttemptPast(a: Artifact, upstream: Upstream, s: State, i: nat)
    requires DistinctNames(a) && Pins(a, upstream)
    requires s.task.Next? && s.task.index <= i && Ready(a, upstream, s, i) && a[s.task.index].name !in s.files
    ensures var events := Past(a, upstream, s); var t := Run(a, s, events);
      && StrictRun(a, upstream, s, events) && OnlyDownloads(events)
      && t.task == Next(s.task.index + 1) && a[s.task.index].name in t.files
      && t.files == s.files[a[s.task.index].name := upstream(a[s.task.index].name)]
      && PartialsOk(a, upstream, t)
  {
    var name := a[s.task.index].name;
    var r := StrictAnswer(upstream(name), Offset(s.partials, name));
    StrictAnswerIsStrict(upstream(name), Offset(s.partials, name));
    assert Passable(a, upstream, s, s.task.index);
    AttemptIsStrict(a, upstream, s, r);
    AnsweredAttempt(a, upstream, s, r);
    AttemptKeepsPrefix(a, upstream, s, r);
  }

  lemma AttemptKeepsPrefix(a: Artifact, upstream: Upstream, s: State, r: Response)
    requires PartialsOk(a, upstream, s) && HonestEvent(a, upstream, s, Open(r))
    ensures PartialsOk(a, upstream, Run(a, s, Attempt(r)))
  {
    AttemptSteps(a, s, r);
    var s1 := Step(a, s, Open(r));
    var s2 := Step(a, s1, Chunk(|r.body|));
    StepKeepsPrefixExactly(a, upstream, s, Open(r));
    StepKeepsPrefixExactly(a, upstream, s1, Chunk(|r.body|));
    StepKeepsPrefixExactly(a, upstream, s2, Close);
  }

  /** The task has nothing to do with this file. */
  ghost predicate Elsewhere(a: Artifact, s: State, other: string) {
    (s.task.Next? || s.task.Streaming?) && s.task.index < |a| ==> other != a[s.task.index].name
  }

  lemma OpenKeepsOther(a: Artifact, s: State, r: Response, other: string)
    requires Elsewhere(a, s, other)
    ensures var t := Step(a, s, Open(r));
      Elsewhere(a, t, other) && Lookup(t.partials, other) == Lookup(s.partials, other)
  {
  }

  lemma ChunkKeepsOther(a: Artifact, s: State, size: nat, other: string)
    requires Elsewhere(a, s, other)
    ensures var t := Step(a, s, Chunk(size));
      Elsewhere(a, t, other) && Lookup(t.partials, other) == Lookup(s.partials, other)
  {
  }

  lemma CloseKeepsOther(a: Artifact, s: State, other: string)
    requires Elsewhere(a, s, other)
    ensures Lookup(Step(a, s, Close).partials, other) == Lookup(s.partials, other)
  {
  }

  /** An attempt touches the partial of its own file only. */
  lemma AttemptKeepsOthers(a: Artifact, s: State, r: Response, other: string)
    requires Elsewhere(a, s, other)
    ensures Lookup(Run(a, s, Attempt(r)).partials, other) == Lookup(s.partials, other)
  {
    AttemptSteps(a, s, r);
    var s1 := Step(a, s, Open(r));
    OpenKeepsOther(a, s, r, other);
    ChunkKeepsOther(a, s1, |r.body|, other);
    CloseKeepsOther(a, Step(a, s1, Chunk(|r.body|)), other);
  }

  lemma PastKeepsReady(a: Artifact, upstream: Upstream, s: State, i: nat)
    requires DistinctNames(a) && Pins(a, upstream) && s.task.Next? && s.task.index <= i && Ready(a, upstream, s, i)
    ensures var events := Past(a, upstream, s); var t := Run(a, s, events);
      && StrictRun(a, upstream, s, events) && OnlyDownloads(events) && Ready(a, upstream, t, i)
      && t.task == Next(s.task.index + 1) && a[s.task.index].name in t.files
  {
    var name := a[s.task.index].name;
    if name in s.files {
      SkipPast(a, upstream, s, i);
    } else {
      AttemptPast(a, upstream, s, i);
      var r := StrictAnswer(upstream(name), Offset(s.partials, name));
      var t := Run(a, s, Attempt(r));
      forall j | 0 <= j <= i ensures Passable(a, upstream, t, j) {
        assert Passable(a, upstream, s, j);
        if a[j].name != name { AttemptKeepsOthers(a, s, r, a[j].name); }
      }
    }
  }

  /** From file to file until file i is there. */
  lemma {:induction false} WayThrough(a: Artifact, upstream: Upstream, s: State, i: nat) returns (events: seq<Event>)
    requires DistinctNames(a) && Pins(a, upstream) && s.task.Next? && s.task.index <= i && Ready(a, upstream, s, i)
    ensures StrictRun(a, upstream, s, events) && OnlyDownloads(events) && a[i].name in Run(a, s, events).files
    decreases i - s.task.index
  {
    var first := Past(a, upstream, s);
    PastKeepsReady(a, upstream, s, i);
    if s.task.index == i {
      events := first;
    } else {
      var t := Run(a, s, first);
      var rest := WayThrough(a, upstream, t, i);
      StrictAppends(a, upstream, s, first, rest);
      RunAppend(a, s, first, rest);
      events := first + rest;
    }
  }

  // ---------- Exactly which files ----------

  ghost predicate Installs(a: Artifact, upstream: Upstream, s: State, events: seq<Event>, name: string) {
    StrictRun(a, upstream, s, events) && OnlyDownloads(events) && name in Run(a, s, events).files
  }

  ghost predicate SomeRunInstalls(a: Artifact, upstream: Upstream, s: State, name: string) {
    exists events :: Installs(a, upstream, s, events, name)
  }

  lemma StartThenWay(a: Artifact, upstream: Upstream, s: State, i: nat) returns (events: seq<Event>)
    requires DistinctNames(a) && Pins(a, upstream) && s.task.Idle? && Ready(a, upstream, s, i) && a[i].name !in s.files
    ensures Installs(a, upstream, s, events, a[i].name)
  {
    var t := Step(a, s, Start(true));
    assert !Installed(a, s.files);
    assert t.task == Next(0) && PartialsOk(a, upstream, t);
    forall j | 0 <= j <= i ensures Passable(a, upstream, t, j) { assert Passable(a, upstream, s, j); }
    var rest := WayThrough(a, upstream, t, i);
    events := [Start(true)] + rest;
    assert events[1..] == rest;
  }

  /** Between downloads, with a strict server and matching pins: some run of starts, retries, cancellations
  and restarts installs a missing file if and only if neither it nor a missing file before it has a
  complete partial. */
  lemma InstallableExactly(a: Artifact, upstream: Upstream, s: State, i: nat)
    requires DistinctNames(a) && Pins(a, upstream) && PartialsOk(a, upstream, s) && s.task.Idle?
    requires i < |a| && a[i].name !in s.files
    ensures SomeRunInstalls(a, upstream, s, a[i].name) <==> forall j :: 0 <= j <= i ==> Passable(a, upstream, s, j)
  {
    if forall j :: 0 <= j <= i ==> Passable(a, upstream, s, j) {
      var events := StartThenWay(a, upstream, s, i);
    } else {
      var j :| 0 <= j <= i && !Passable(a, upstream, s, j);
      forall events ensures !Installs(a, upstream, s, events, a[i].name) {
        if StrictRun(a, upstream, s, events) && OnlyDownloads(events) {
          BlockedRun(a, upstream, s, j, s.partials[a[j].name], i, events);
        }
      }
    }
  }
}
