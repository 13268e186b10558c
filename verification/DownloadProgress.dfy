/** The bytes a download reports. */
module DownloadProgress {
  import opened Prelude
  import opened Download
  import opened DownloadSafety

  ghost predicate Nondecreasing(reports: seq<nat>) {
    forall i, j :: 0 <= i <= j < |reports| ==> reports[i] <= reports[j]
  }

  /** What the running download has reached: all installed files and the written part. */
  function Reached(a: Artifact, s: State): nat {
    if s.task.Streaming? then s.task.completed + s.task.written else InstalledBytes(a, s.files, None)
  }

  ghost predicate ProgressOk(a: Artifact, s: State) {
    && Nondecreasing(s.reports)
    && (!s.task.Idle? && s.reports != [] ==> s.reports[|s.reports| - 1] <= Reached(a, s))
  }

  lemma {:induction false} InstalledBytesSplit(a: Artifact, files: map<string, Bytes>, i: nat, bytes: Bytes)
    requires DistinctNames(a) && i < |a| && a[i].name !in files
    ensures InstalledBytes(a, files[a[i].name := bytes], None) == InstalledBytes(a, files, Some(a[i].name)) + |bytes|
    ensures InstalledBytes(a, files, None) == InstalledBytes(a, files, Some(a[i].name))
    decreases |a|
  {
    if i == 0 {
      OtherBytes(a[1..], files, a[0].name, bytes);
    } else {
      assert a[1..][i - 1] == a[i];
      InstalledBytesSplit(a[1..], files, i - 1, bytes);
    }
  }

  lemma {:induction false} OtherBytes(a: Artifact, files: map<string, Bytes>, name: string, bytes: Bytes)
    requires forall i :: 0 <= i < |a| ==> a[i].name != name
    ensures InstalledBytes(a, files[name := bytes], None) == InstalledBytes(a, files, Some(name))
    ensures InstalledBytes(a, files, None) == InstalledBytes(a, files, Some(name))
    decreases |a|
  {
    if a != [] { OtherBytes(a[1..], files, name, bytes); }
  }

  lemma StreamKeepsProgress(a: Artifact, s: State, e: Event)
    requires DistinctNames(a) && TaskOk(a, s) && ProgressOk(a, s) && s.task.Streaming?
    ensures ProgressOk(a, Step(a, s, e))
  {
    var name := a[s.task.index].name;
    InstalledBytesSplit(a, s.files, s.task.index, s.partials[name]);
  }

  lemma NextKeepsProgress(a: Artifact, s: State, e: Event)
    requires DistinctNames(a) && ProgressOk(a, s) && s.task.Next?
    ensures ProgressOk(a, Step(a, s, e))
  {
    if s.task.index < |a| && a[s.task.index].name !in s.files {
      InstalledBytesSplit(a, s.files, s.task.index, []);
    }
  }

  lemma IdleKeepsProgress(a: Artifact, s: State, e: Event)
    requires ProgressOk(a, s) && s.task.Idle?
    ensures ProgressOk(a, Step(a, s, e))
  {
  }

  lemma StepKeepsProgress(a: Artifact, s: State, e: Event)
    requires DistinctNames(a) && TaskOk(a, s) && ProgressOk(a, s)
    ensures ProgressOk(a, Step(a, s, e))
  {
    match s.task
    case Idle => IdleKeepsProgress(a, s, e);
    case Next(_) => NextKeepsProgress(a, s, e);
    case Streaming(_, _, _, _, _) => StreamKeepsProgress(a, s, e);
  }

  /** Over a whole download, through every file and resumption, reported bytes never decrease. */
  lemma {:induction false} ProgressNeverDecreases(a: Artifact, s: State, events: seq<Event>)
    requires DistinctNames(a) && Pinned(a, s.files) && TaskOk(a, s) && ProgressOk(a, s)
    ensures Nondecreasing(Run(a, s, events).reports)
    decreases |events|
  {
    if events != [] {
      StepKeepsPins(a, s, events[0]);
      StepKeepsProgress(a, s, events[0]);
      ProgressNeverDecreases(a, Step(a, s, events[0]), events[1..]);
    }
  }

  /** Telescoping: the report of the last chunk of a file equals, after its activation, the total
  size of the installed files. */
  lemma LastReportIsInstalledTotal(a: Artifact, s: State, size: nat)
    requires DistinctNames(a) && TaskOk(a, s) && s.task.Streaming?
    ensures var s1 := Step(a, s, Chunk(size)); var t := Step(a, s1, Close);
      t.task == Next(s.task.index + 1) ==>
        t.reports == s1.reports && t.reports[|t.reports| - 1] == InstalledBytes(a, t.files, None)
  {
    var s1 := Step(a, s, Chunk(size));
    var name := a[s.task.index].name;
    InstalledBytesSplit(a, s1.files, s.task.index, s1.partials[name]);
  }

  /** With an honest server that sends a length, the expected size is the upstream size, resumed or
  not, so the last report reaches exactly the expected total. */
  lemma ExpectedIsUpstreamSize(a: Artifact, upstream: Upstream, s: State, r: Response)
    requires s.task.Next? && s.task.index < |a| && HonestEvent(a, upstream, s, Open(r)) && r.length.Some?
    requires PartialsOk(a, upstream, s)
    ensures var t := OpenStream(a, s, r);
      t.task.Streaming? ==>
        t.task.expected == |upstream(a[s.task.index].name)| && t.task.written + |t.task.rest| == t.task.expected
  {
  }
}
