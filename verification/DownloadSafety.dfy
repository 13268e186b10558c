/** What downloads, imports, removals and crashes keep. */
module DownloadSafety {
  import opened Prelude
  import opened Download

  // ---------- Every installed file has its pinned hash ----------

  ghost predicate Pinned(a: Artifact, files: map<string, Bytes>) {
    forall name <- files :: FileNamed(a, name).Some? && Sha256(files[name]) == FileNamed(a, name).value.pin
  }

  /** The streamed file is the open partial, of the size written so far. */
  ghost predicate TaskOk(a: Artifact, s: State) {
    s.task.Streaming? ==>
      && s.task.index < |a| && a[s.task.index].name in s.partials && a[s.task.index].name !in s.files
      && s.task.written == |s.partials[a[s.task.index].name]|
      && s.task.completed == InstalledBytes(a, s.files, Some(a[s.task.index].name))
  }

  lemma {:induction false} FileNamedAt(a: Artifact, i: nat)
    requires DistinctNames(a) && i < |a|
    ensures FileNamed(a, a[i].name) == Some(a[i])
    decreases |a|
  {
    if i > 0 {
      assert a[1..][i - 1] == a[i];
      FileNamedAt(a[1..], i - 1);
    }
  }

  lemma ActivateKeepsPins(a: Artifact, s: State, file: ModelFile)
    requires Pinned(a, s.files) && file.name in s.partials && FileNamed(a, file.name) == Some(file)
    ensures Pinned(a, Activate(s, file).0.files)
  {
  }

  lemma FinishKeepsPins(a: Artifact, s: State)
    requires DistinctNames(a) && Pinned(a, s.files) && CanStream(a, s)
    ensures Pinned(a, Finish(a, s).files)
  {
    FileNamedAt(a, s.task.index);
    ActivateKeepsPins(a, s, a[s.task.index]);
  }

  lemma ImportKeepsPins(a: Artifact, s: State, name: string, source: Bytes)
    requires Pinned(a, s.files)
    ensures Pinned(a, Step(a, s, Import(name, source)).files)
  {
    if s.task.Idle? && FileNamed(a, name).Some? {
      ActivateKeepsPins(a, s.(partials := s.partials[name := source], directory := true), FileNamed(a, name).value);
    }
  }

  lemma StepKeepsTask(a: Artifact, s: State, e: Event)
    requires TaskOk(a, s)
    ensures TaskOk(a, Step(a, s, e))
  {
  }

  lemma StepKeepsPins(a: Artifact, s: State, e: Event)
    requires DistinctNames(a) && Pinned(a, s.files) && TaskOk(a, s)
    ensures Pinned(a, Step(a, s, e).files) && TaskOk(a, Step(a, s, e))
  {
    StepKeepsTask(a, s, e);
    match e
    case Close => if CanStream(a, s) { FinishKeepsPins(a, s); }
    case Import(name, source) => ImportKeepsPins(a, s, name, source);
    case _ =>
  }

  /** Whatever the server sends, in every reachable state of the service each installed file has
  the bytes its pin stands for. */
  lemma {:induction false} InstalledFilesArePinned(a: Artifact, s: State, events: seq<Event>)
    requires DistinctNames(a) && Pinned(a, s.files) && TaskOk(a, s)
    ensures Pinned(a, Run(a, s, events).files) && TaskOk(a, Run(a, s, events))
    decreases |events|
  {
    if events != [] {
      StepKeepsPins(a, s, events[0]);
      InstalledFilesArePinned(a, Step(a, s, events[0]), events[1..]);
    }
  }

  /** An import that is not disturbed installs the owner's file if and only if it has the pinned hash; the
  partial it was copied to is gone either way, and no other file changes. */
  lemma ImportInstallsExactly(a: Artifact, s: State, file: ModelFile, source: Bytes)
    requires Pinned(a, s.files) && s.task.Idle? && FileNamed(a, file.name) == Some(file)
    ensures var t := Step(a, s, Import(file.name, source));
      && (Lookup(t.files, file.name) == Some(source) <==> Sha256(source) == file.pin)
      && (Sha256(source) == file.pin ==> t.files == s.files[file.name := source] && !t.failed)
      && (Sha256(source) != file.pin ==> t.files == s.files && t.failed == s.failed)
      && t.partials == s.partials - {file.name} && t.task.Idle? && t.directory
  {
  }

  /** An import of a file that is not part of the artifact changes nothing. */
  lemma ForeignImportChangesNothing(a: Artifact, s: State, name: string, source: Bytes)
    requires forall i :: 0 <= i < |a| ==> a[i].name != name
    ensures Step(a, s, Import(name, source)) == s
  {
  }

  // ---------- One action at a time ----------

  /** While a download runs, the owner's start, import and removal change nothing. */
  lemma RunningRefusesOthers(a: Artifact, s: State, e: Event)
    requires !s.task.Idle? && (e.Start? || e.Import? || e.CrashedImport? || e.Remove?)
    ensures Step(a, s, e) == s
  {
  }

  // ---------- Partial files are prefixes ----------

  predicate IsPrefix(p: Bytes, q: Bytes) {
    p <= q
  }

  ghost predicate PartialsOk(a: Artifact, upstream: Upstream, s: State) {
    && (forall name <- s.partials :: IsPrefix(s.partials[name], upstream(name)))
    && (s.task.Streaming? ==>
          && s.task.index < |a| && a[s.task.index].name in s.partials
          && s.partials[a[s.task.index].name] + s.task.rest == upstream(a[s.task.index].name))
  }

  /** How many first bytes two files share. */
  function Common(p: Bytes, q: Bytes): (n: nat)
    ensures n <= |p| && n <= |q| && p[..n] == q[..n]
    ensures n < |p| && n < |q| ==> p[n] != q[n]
  {
    if p == [] || q == [] || p[0] != q[0] then 0 else 1 + Common(p[1..], q[1..])
  }

  /** Only an import that dies can leave a foreign partial behind, and it does so if it got past the
  bytes that the owner's file shares with the upstream one. */
  ghost predicate LeavesUpstream(a: Artifact, upstream: Upstream, s: State, e: Event) {
    e.CrashedImport? && s.task.Idle? && FileNamed(a, e.name).Some? ==>
      Min(e.copied, |e.source|) <= Common(e.source, upstream(e.name))
  }

  lemma CutIsPrefixExactly(source: Bytes, content: Bytes, n: nat)
    requires n <= |source|
    ensures IsPrefix(source[..n], content) <==> n <= Common(source, content)
  {
    var k := Common(source, content);
    if n <= k {
      assert source[..n] == source[..k][..n] == content[..k][..n] == content[..n];
    }
    if k < n <= |content| {
      assert source[..n][k] != content[..n][k];
    }
  }

  ghost predicate CleanRun(a: Artifact, upstream: Upstream, s: State, events: seq<Event>)
    decreases |events|
  {
    events == [] ||
    (LeavesUpstream(a, upstream, s, events[0]) && CleanRun(a, upstream, Step(a, s, events[0]), events[1..]))
  }

  lemma OpenKeepsPrefix(a: Artifact, upstream: Upstream, s: State, r: Response)
    requires PartialsOk(a, upstream, s) && s.task.Next? && s.task.index < |a|
    requires HonestEvent(a, upstream, s, Open(r))
    ensures PartialsOk(a, upstream, OpenStream(a, s, r))
  {
    var name := a[s.task.index].name;
    if name in s.partials {
      assert upstream(name)[..|s.partials[name]|] + upstream(name)[|s.partials[name]|..] == upstream(name);
    }
  }

  lemma ReceiveKeepsPrefix(a: Artifact, upstream: Upstream, s: State, size: nat)
    requires PartialsOk(a, upstream, s) && CanStream(a, s)
    ensures PartialsOk(a, upstream, Receive(a, s, size))
  {
    var name := a[s.task.index].name;
    var n := Min(size, |s.task.rest|);
    assert s.task.rest[..n] + s.task.rest[n..] == s.task.rest;
    assert (s.partials[name] + s.task.rest[..n]) + s.task.rest[n..] == upstream(name);
  }

  /** With an honest server a step keeps every partial file a prefix exactly when it is not an
  import that died with foreign bytes copied. */
  lemma StepKeepsPrefixExactly(a: Artifact, upstream: Upstream, s: State, e: Event)
    requires PartialsOk(a, upstream, s) && HonestEvent(a, upstream, s, e)
    ensures PartialsOk(a, upstream, Step(a, s, e)) <==> LeavesUpstream(a, upstream, s, e)
  {
    match e
    case Open(r) => if s.task.Next? && s.task.index < |a| { OpenKeepsPrefix(a, upstream, s, r); }
    case Chunk(size) => if CanStream(a, s) { ReceiveKeepsPrefix(a, upstream, s, size); }
    case CrashedImport(name, source, copied) =>
      if s.task.Idle? && FileNamed(a, name).Some? {
        assert Step(a, s, e).partials[name] == source[..Min(copied, |source|)];
        CutIsPrefixExactly(source, upstream(name), Min(copied, |source|));
      }
    case _ =>
  }

  /** After every chunk, failure, cancellation, crash and resumption, each partial file is a prefix
  of the upstream content, and the stream holds exactly what is missing. */
  lemma {:induction false} PartialsStayPrefixes(a: Artifact, upstream: Upstream, s: State, events: seq<Event>)
    requires PartialsOk(a, upstream, s)
    requires HonestRun(a, upstream, s, events) && CleanRun(a, upstream, s, events)
    ensures PartialsOk(a, upstream, Run(a, s, events))
    decreases |events|
  {
    if events != [] {
      StepKeepsPrefixExactly(a, upstream, s, events[0]);
      PartialsStayPrefixes(a, upstream, Step(a, s, events[0]), events[1..]);
    }
  }

  // ---------- When an attempt installs the file ----------

  /** One attempt that is not disturbed: the response opens, everything arrives, the stream ends. */
  function Attempt(r: Response): seq<Event> {
    [Open(r), Chunk(|r.body|), Close]
  }

  lemma AttemptSteps(a: Artifact, s: State, r: Response)
    ensures Run(a, s, Attempt(r)) == Step(a, Step(a, Step(a, s, Open(r)), Chunk(|r.body|)), Close)
  {
    var e := Attempt(r);
    assert e[1..] == [Chunk(|r.body|), Close];
    assert e[1..][1..] == [Close];
    assert e[1..][1..][1..] == [];
    var s1 := Step(a, s, e[0]);
    assert Run(a, s1, e[1..]) == Run(a, Step(a, s1, Chunk(|r.body|)), [Close]);
  }

  /** A stream that has delivered everything: closing it installs the upstream content. */
  lemma DrainedInstalls(a: Artifact, upstream: Upstream, s: State)
    requires CanStream(a, s) && PartialsOk(a, upstream, s) && |s.task.rest| == 0
    requires Sha256(upstream(a[s.task.index].name)) == a[s.task.index].pin
    ensures var t := Step(a, s, Close); var name := a[s.task.index].name;
      && t.files == s.files[name := upstream(name)] && name !in t.partials
      && t.task == Next(s.task.index + 1) && t.failed == s.failed
      && PartialsOk(a, upstream, t)
  {
    assert s.partials[a[s.task.index].name] + [] == upstream(a[s.task.index].name);
  }

  lemma AnsweredAttempt(a: Artifact, upstream: Upstream, s: State, r: Response)
    requires s.task.Next? && s.task.index < |a| && a[s.task.index].name !in s.files
    requires PartialsOk(a, upstream, s) && HonestEvent(a, upstream, s, Open(r))
    requires Sha256(upstream(a[s.task.index].name)) == a[s.task.index].pin
    requires r.status == 200 || r.status == 206
    ensures var name := a[s.task.index].name; var t := Run(a, s, Attempt(r));
      && t.files == s.files[name := upstream(name)] && name !in t.partials && t.task == Next(s.task.index + 1)
  {
    AttemptSteps(a, s, r);
    OpenKeepsPrefix(a, upstream, s, r);
    var s1 := Step(a, s, Open(r));
    ReceiveKeepsPrefix(a, upstream, s1, |r.body|);
    DrainedInstalls(a, upstream, Step(a, s1, Chunk(|r.body|)));
  }

  /** With upstream content that matches the pin and a partial that is its prefix, an undisturbed
  attempt installs the file exactly when the server answers 200 or 206. */
  lemma AttemptInstallsExactly(a: Artifact, upstream: Upstream, s: State, r: Response)
    requires s.task.Next? && s.task.index < |a| && a[s.task.index].name !in s.files
    requires PartialsOk(a, upstream, s) && HonestEvent(a, upstream, s, Open(r))
    requires Sha256(upstream(a[s.task.index].name)) == a[s.task.index].pin
    ensures var name := a[s.task.index].name; var t := Run(a, s, Attempt(r));
      && (name in t.files <==> r.status == 200 || r.status == 206)
      && (name in t.files ==>
            t.files[name] == upstream(name) && name !in t.partials && t.task == Next(s.task.index + 1))
      && (name !in t.files ==> t == s.(task := Idle, failed := true))
  {
    if r.status == 200 || r.status == 206 {
      AnsweredAttempt(a, upstream, s, r);
    } else {
      AttemptSteps(a, s, r);
    }
  }

  /** A server that always answers a range request with the range, or 416 when it is empty. */
  ghost predicate Strict(content: Bytes, offset: nat, r: Response) {
    && Honours(content, offset, r)
    && r.status == (if offset == 0 then 200 else if offset < |content| then 206 else 416)
  }

  ghost predicate StrictEvent(a: Artifact, upstream: Upstream, s: State, e: Event) {
    e.Open? && s.task.Next? && s.task.index < |a| ==>
      Strict(upstream(a[s.task.index].name), Offset(s.partials, a[s.task.index].name), e.response)
  }

  ghost predicate StrictRun(a: Artifact, upstream: Upstream, s: State, events: seq<Event>)
    decreases |events|
  {
    events == [] ||
    (StrictEvent(a, upstream, s, events[0]) && StrictRun(a, upstream, Step(a, s, events[0]), events[1..]))
  }

  /** A non-empty partial file that already holds the whole content. */
  ghost predicate Complete(upstream: Upstream, s: State, name: string) {
    name in s.partials && |s.partials[name]| > 0 && |s.partials[name]| >= |upstream(name)|
  }

  predicate Downloads(e: Event) {
    !e.Import? && !e.CrashedImport? && !e.Remove?
  }

  /** The complete partial file is there, and nothing streams into it. */
  ghost predicate Stuck(a: Artifact, s: State, name: string, partial: Bytes) {
    && Lookup(s.partials, name) == Some(partial) && name !in s.files
    && (s.task.Streaming? && s.task.index < |a| ==> a[s.task.index].name != name)
  }

  lemma StuckStep(a: Artifact, upstream: Upstream, s: State, name: string, e: Event)
    requires DistinctNames(a) && Complete(upstream, s, name) && Stuck(a, s, name, s.partials[name])
    requires Downloads(e) && StrictEvent(a, upstream, s, e)
    ensures Stuck(a, Step(a, s, e), name, s.partials[name])
  {
    match e
    case Open(r) =>
    case Close => if CanStream(a, s) { assert a[s.task.index].name != name; }
    case _ =>
  }

  /** The trap: once a partial file is complete, a strict server answers 416 to every resumption, so
  no run of starts, retries, cancellations and restarts ever installs the file. */
  lemma {:induction false} CompletePartialNeverInstalls(a: Artifact, upstream: Upstream, s: State, name: string,
                                                        events: seq<Event>)
    requires DistinctNames(a) && Complete(upstream, s, name) && name !in s.files
    requires s.task.Streaming? && s.task.index < |a| ==> a[s.task.index].name != name
    requires StrictRun(a, upstream, s, events) && forall i :: 0 <= i < |events| ==> Downloads(events[i])
    ensures name !in Run(a, s, events).files
    decreases |events|
  {
    if events != [] {
      assert Downloads(events[0]);
      StuckStep(a, upstream, s, name, events[0]);
      CompletePartialNeverInstalls(a, upstream, Step(a, s, events[0]), name, events[1..]);
    }
  }

  /** With a strict server, an undisturbed attempt installs the file exactly when the partial file
  is missing, empty or shorter than the content. */
  lemma StrictAttemptInstallsExactly(a: Artifact, upstream: Upstream, s: State, r: Response)
    requires s.task.Next? && s.task.index < |a| && a[s.task.index].name !in s.files
    requires PartialsOk(a, upstream, s) && StrictEvent(a, upstream, s, Open(r))
    requires Sha256(upstream(a[s.task.index].name)) == a[s.task.index].pin
    ensures var name := a[s.task.index].name;
      name in Run(a, s, Attempt(r)).files <==> !Complete(upstream, s, name)
  {
    AttemptInstallsExactly(a, upstream, s, r);
  }

  /** A foreign partial costs one attempt: the resumed file fails verification and is discarded, and
  the next attempt starts afresh and installs the content. */
  lemma ForeignPartialIsDiscarded(a: Artifact, upstream: Upstream, s: State, r: Response, again: Response)
    requires s.task.Next? && s.task.index < |a| && a[s.task.index].name !in s.files
    requires var name := a[s.task.index].name;
      && name in s.partials && 0 < |s.partials[name]| < |upstream(name)|
      && !IsPrefix(s.partials[name], upstream(name))
      && Sha256(upstream(name)) == a[s.task.index].pin
      && Strict(upstream(name), |s.partials[name]|, r)
      && Strict(upstream(name), 0, again)
    ensures var name := a[s.task.index].name; var t := Run(a, s, Attempt(r));
      && name !in t.files && name !in t.partials && t.task.Idle? && t.failed
      && var u := Run(a, t.(task := Next(s.task.index)), Attempt(again));
         name in u.files && u.files[name] == upstream(name)
  {
    var name := a[s.task.index].name;
    var t := Run(a, s, Attempt(r));
    ForeignAttemptFails(a, upstream, s, r);
    FirstAttemptInstalls(a, upstream, t.(task := Next(s.task.index)), again);
  }

  lemma ForeignAttemptFails(a: Artifact, upstream: Upstream, s: State, r: Response)
    requires s.task.Next? && s.task.index < |a| && a[s.task.index].name !in s.files
    requires var name := a[s.task.index].name;
      && name in s.partials && 0 < |s.partials[name]| < |upstream(name)|
      && !IsPrefix(s.partials[name], upstream(name))
      && Sha256(upstream(name)) == a[s.task.index].pin
      && Strict(upstream(name), |s.partials[name]|, r)
    ensures var name := a[s.task.index].name; var t := Run(a, s, Attempt(r));
      name !in t.files && name !in t.partials && t.task.Idle? && t.failed
  {
    var name := a[s.task.index].name;
    AttemptSteps(a, s, r);
    var s2 := Step(a, Step(a, s, Open(r)), Chunk(|r.body|));
    assert s2.partials[name] == s.partials[name] + r.body;
    assert s2.partials[name][..|s.partials[name]|] == s.partials[name];
    assert s2.partials[name] != upstream(name);
  }

  lemma FirstAttemptInstalls(a: Artifact, upstream: Upstream, s: State, r: Response)
    requires s.task.Next? && s.task.index < |a|
    requires var name := a[s.task.index].name;
      && name !in s.files && name !in s.partials && Sha256(upstream(name)) == a[s.task.index].pin
      && Strict(upstream(name), 0, r)
    ensures var name := a[s.task.index].name; var t := Run(a, s, Attempt(r));
      name in t.files && t.files[name] == upstream(name)
  {
    AttemptSteps(a, s, r);
    var name := a[s.task.index].name;
    var s2 := Step(a, Step(a, s, Open(r)), Chunk(|r.body|));
    assert s2.partials[name] == [] + r.body;
  }

  // ---------- Removal ----------

  /** Files lie only in a directory that is there. */
  ghost predicate Housed(s: State) {
    s.files != map[] || s.partials != map[] || !s.task.Idle? ==> s.directory
  }

  lemma StepKeepsHoused(a: Artifact, s: State, e: Event)
    requires Housed(s)
    ensures Housed(Step(a, s, e))
  {
  }

  /** In every reachable state without a download a removal leaves no file: it is refused only where
  there is no directory, and then there is no file either. */
  lemma {:induction false} RemoveLeavesNothing(a: Artifact, s: State, events: seq<Event>)
    requires Housed(s)
    ensures Housed(Run(a, s, events))
    ensures var t := Run(a, s, events);
      t.task.Idle? ==> Step(a, t, Remove).files == map[] && Step(a, t, Remove).partials == map[]
    decreases |events|
  {
    if events != [] {
      StepKeepsHoused(a, s, events[0]);
      RemoveLeavesNothing(a, Step(a, s, events[0]), events[1..]);
    }
  }
}
