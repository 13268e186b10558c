/** What each request to the download service, and each way a download can end, does to the state an
owner sees: the files, the partial files, the running task and the failure that is shown. */
module DownloadAnswers {
  import opened Prelude
  import opened Download
  import opened DownloadService

  /** A start begins a download exactly when none runs, a file is missing and the policy admits it; it
  forgets the last failure and touches no file. */
  lemma StartBeginsExactly(a: Artifact, s: State, allowed: bool)
    requires s.task.Idle?
    ensures var t := Step(a, s, Start(allowed));
      && (!t.task.Idle? <==> allowed && exists i :: 0 <= i < |a| && a[i].name !in s.files)
      && (t.task.Idle? ==> t == s)
      && (!t.task.Idle? ==> t.task == Next(0) && !t.failed && t.directory && t.reports == [])
      && t.files == s.files && t.partials == s.partials
  {
  }

  /** Whatever disturbs a running download, it ends with every file and every partial as they were, and
  only a failure is shown as one. */
  lemma DisturbedKeepsFiles(a: Artifact, s: State, e: Event)
    requires !s.task.Idle? && (e.Fail? || e.Cancel? || e.Crash?)
    ensures var t := Step(a, s, e);
      && t.task.Idle? && (t.failed <==> e.Fail?)
      && t.files == s.files && t.partials == s.partials && t.reports == s.reports && t.directory == s.directory
  {
  }

  /** The task is where the download loop can be: at a missing file, or streaming into its partial. */
  ghost predicate AtWork(a: Artifact, s: State) {
    && !s.task.Idle? && s.task.index < |a| && a[s.task.index].name !in s.files
    && (s.task.Streaming? ==> a[s.task.index].name in s.partials)
  }

  /** The ways a running download can come to show a failure: something failed, the server answered with
  no content, or the streamed bytes are not the pinned ones. */
  ghost predicate EndsBadly(a: Artifact, s: State, e: Event)
    requires AtWork(a, s)
  {
    || e.Fail?
    || (e.Open? && s.task.Next? && e.response.status != 200 && e.response.status != 206)
    || (e.Close? && s.task.Streaming? && s.task.rest == [] &&
        Sha256(s.partials[a[s.task.index].name]) != a[s.task.index].pin)
  }

  /** A download at work stops in one step exactly when it is cancelled, dies or ends badly, and only a bad
  end is a failure. */
  lemma StopsExactly(a: Artifact, s: State, e: Event)
    requires AtWork(a, s)
    ensures var t := Step(a, s, e);
      && (t.task.Idle? <==> e.Cancel? || e.Crash? || EndsBadly(a, s, e))
      && (t.task.Idle? ==> (t.failed <==> EndsBadly(a, s, e)))
      && (!t.task.Idle? ==> t.failed == s.failed)
  {
  }

  /** After the last file the download is over without a failure of its own. */
  lemma EndOfFilesEnds(a: Artifact, s: State)
    requires s.task.Next? && s.task.index >= |a|
    ensures Step(a, s, Skip) == s.(task := Idle)
  {
  }

  /** Without a length header the expected size is the larger of the listed size and the bytes that are
  already there. */
  lemma ExpectedWithoutLength(a: Artifact, s: State, r: Response)
    requires s.task.Next? && s.task.index < |a| && a[s.task.index].name !in s.files && r.length.None?
    ensures var t := Step(a, s, Open(r)); var file := a[s.task.index]; var there := Offset(s.partials, file.name);
      t.task.Streaming? ==>
        && t.task.expected >= file.approximate && t.task.expected >= there
        && (t.task.expected == file.approximate || t.task.expected == there)
  {
  }

  /** An import that dies leaves the bytes it copied as the partial, and no failure; a refused one leaves
  everything. */
  lemma CutImportLeaves(a: Artifact, s: State, name: string, source: Bytes, copied: nat)
    requires s.task.Idle? && (exists i :: 0 <= i < |a| && a[i].name == name) && copied <= |source|
    ensures var t := Step(a, s, CrashedImport(name, source, copied));
      && t.files == s.files && Lookup(t.partials, name) == Some(source[..copied])
      && (forall other :: other != name ==> Lookup(t.partials, other) == Lookup(s.partials, other))
      && t.task.Idle? && !t.failed && t.directory
  {
    NamedExactly(a, name);
  }

  /** A name is one of the artifact's exactly when one of its files carries it. */
  lemma {:induction false} NamedExactly(a: Artifact, name: string)
    ensures FileNamed(a, name).Some? <==> exists i :: 0 <= i < |a| && a[i].name == name
    decreases |a|
  {
    if a != [] {
      NamedExactly(a[1..], name);
      if a[0].name != name && (exists i :: 0 <= i < |a| && a[i].name == name) {
        var i :| 0 <= i < |a| && a[i].name == name;
        assert a[1..][i - 1].name == name;
      }
    }
  }

  /** Removal works exactly when nothing runs and the model's directory is there; then nothing of the model
  is left and no failure is shown. */
  lemma RemovalExactly(a: Artifact, s: State)
    ensures var t := Step(a, s, Remove);
      && (s.task.Idle? && s.directory ==>
            t.files.Keys == {} && t.partials.Keys == {} && !t.directory && !t.failed && t.task.Idle?)
      && (!(s.task.Idle? && s.directory) ==> t == s)
  {
  }

  // ---------- One file's exchange ----------

  lemma {:induction false} ChunksStream(a: Artifact, s: State, sizes: seq<nat>)
    requires AtWork(a, s) && s.task.Streaming?
    ensures var t := Run(a, s, Chunks(sizes));
      && AtWork(a, t) && t.task.Streaming? && t.task.index == s.task.index
      && t.files == s.files && t.failed == s.failed && |t.task.rest| == Remaining(|s.task.rest|, sizes)
    decreases |sizes|
  {
    if sizes != [] {
      assert Chunks(sizes)[1..] == Chunks(sizes[1..]);
      ChunksStream(a, Step(a, s, Chunk(sizes[0])), sizes[1..]);
    }
  }

  lemma OpenedStreams(a: Artifact, s: State, r: Response)
    requires AtWork(a, s) && s.task.Next? && (r.status == 200 || r.status == 206)
    ensures var t := Step(a, s, Open(r));
      AtWork(a, t) && t.task.Streaming? && t.files == s.files && t.failed == s.failed && t.task.rest == r.body
  {
  }

  lemma LastEventEnds(a: Artifact, s: State, x: Exchange)
    requires AtWork(a, s) && s.task.Streaming?
    requires x.ending != Ended || Remaining(|x.response.body|, x.sizes) > 0
    ensures var t := Step(a, s, LastEvent(x));
      t.task.Idle? && t.files == s.files && (t.failed <==> x.ending != Cancelled)
  {
  }

  /** An exchange whose response is accepted but whose stream is broken off, cancelled or too short ends the
  download with the files as they were; only a cancellation is not shown as a failure. */
  lemma UnfinishedExchangeEnds(a: Artifact, s: State, x: Exchange)
    requires AtWork(a, s) && s.task.Next? && (x.response.status == 200 || x.response.status == 206)
    requires x.ending != Ended || Remaining(|x.response.body|, x.sizes) > 0
    ensures var t := Run(a, s, FileEvents(x));
      t.task.Idle? && t.files == s.files && (t.failed <==> x.ending != Cancelled)
  {
    FileEventsRun(a, s, x);
    OpenedStreams(a, s, x.response);
    ChunksStream(a, Step(a, s, Open(x.response)), x.sizes);
    LastEventEnds(a, Run(a, Step(a, s, Open(x.response)), Chunks(x.sizes)), x);
  }

  lemma ChunksAfterEnd(a: Artifact, s: State, sizes: seq<nat>)
    requires s.task.Idle?
    ensures Run(a, s, Chunks(sizes)) == s
  {
    IdleRun(a, s, Chunks(sizes));
  }

  /** One whose response is refused fails whatever follows, and changes no file and no partial. */
  lemma RefusedExchangeFails(a: Artifact, s: State, x: Exchange)
    requires AtWork(a, s) && s.task.Next? && x.response.status != 200 && x.response.status != 206
    ensures Run(a, s, FileEvents(x)) == s.(task := Idle, failed := true)
  {
    FileEventsRun(a, s, x);
    ChunksAfterEnd(a, Step(a, s, Open(x.response)), x.sizes);
  }
}
