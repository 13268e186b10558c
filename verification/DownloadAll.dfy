/** The whole download: it is a run of the steps, and it installs everything a server serves. */
module DownloadAll {
  import opened Prelude
  import opened Download
  import opened DownloadSafety
  import opened DownloadService

  /** The exchange answers with the file or the range asked for, and everything arrives. */
  ghost predicate Serves(a: Artifact, upstream: Upstream, s: State, x: Exchange) {
    && x.ending == Ended && Remaining(|x.response.body|, x.sizes) == 0
    && (x.response.status == 200 || x.response.status == 206)
    && HonestEvent(a, upstream, s, Open(x.response))
  }

  ghost predicate ServesAll(a: Artifact, upstream: Upstream, s: State, exchanges: seq<Exchange>)
    decreases |exchanges|, if s.task.Next? then |a| + 1 - s.task.index else 0
  {
    if !s.task.Next? || s.task.index >= |a| then true
    else if a[s.task.index].name in s.files then ServesAll(a, upstream, Step(a, s, Skip), exchanges)
    else
      && exchanges != [] && Serves(a, upstream, s, exchanges[0])
      && ServesAll(a, upstream, Run(a, s, FileEvents(exchanges[0])), exchanges[1..])
  }

  lemma {:induction false} ChunksDrain(a: Artifact, upstream: Upstream, s: State, sizes: seq<nat>)
    requires CanStream(a, s) && PartialsOk(a, upstream, s)
    ensures var t := Run(a, s, Chunks(sizes));
      && CanStream(a, t) && PartialsOk(a, upstream, t)
      && t.task.index == s.task.index && t.files == s.files && t.failed == s.failed
      && |t.task.rest| == Remaining(|s.task.rest|, sizes)
    decreases |sizes|
  {
    if sizes != [] {
      ReceiveKeepsPrefix(a, upstream, s, sizes[0]);
      assert Chunks(sizes)[1..] == Chunks(sizes[1..]);
      ChunksDrain(a, upstream, Step(a, s, Chunk(sizes[0])), sizes[1..]);
    }
  }

  /** An exchange that serves the file installs exactly the upstream content. */
  lemma ServedFileInstalls(a: Artifact, upstream: Upstream, s: State, x: Exchange)
    requires s.task.Next? && s.task.index < |a| && a[s.task.index].name !in s.files
    requires PartialsOk(a, upstream, s) && Serves(a, upstream, s, x)
    requires Sha256(upstream(a[s.task.index].name)) == a[s.task.index].pin
    ensures var t := Run(a, s, FileEvents(x)); var name := a[s.task.index].name;
      && t.files == s.files[name := upstream(name)]
      && t.task == Next(s.task.index + 1) && t.failed == s.failed
      && PartialsOk(a, upstream, t)
  {
    FileEventsRun(a, s, x);
    OpenKeepsPrefix(a, upstream, s, x.response);
    var s1 := Step(a, s, Open(x.response));
    ChunksDrain(a, upstream, s1, x.sizes);
    DrainedInstalls(a, upstream, Run(a, s1, Chunks(x.sizes)));
  }

  /** If every missing file is served, with any chunking and any partial files of the same content
  to begin with, the download ends with the whole artifact installed. */
  lemma {:induction false} ServedDownloadInstallsAll(a: Artifact, upstream: Upstream, s: State,
                                                     exchanges: seq<Exchange>)
    requires s.task.Next? && s.task.index <= |a| && PartialsOk(a, upstream, s)
    requires forall i :: 0 <= i < s.task.index ==> a[i].name in s.files
    requires forall i :: 0 <= i < |a| ==> Sha256(upstream(a[i].name)) == a[i].pin
    requires ServesAll(a, upstream, s, exchanges)
    ensures var t := DownloadFiles(a, s, exchanges); Installed(a, t.files) && t.task.Idle? && t.failed == s.failed
    decreases |exchanges|, |a| + 1 - s.task.index
  {
    if s.task.index < |a| {
      if a[s.task.index].name in s.files {
        ServedDownloadInstallsAll(a, upstream, Step(a, s, Skip), exchanges);
      } else {
        ServedFileInstalls(a, upstream, s, exchanges[0]);
        var t := Run(a, s, FileEvents(exchanges[0]));
        ServedDownloadInstallsAll(a, upstream, t, exchanges[1..]);
      }
    }
  }

  /** Every download is a run of steps, so what all runs keep, it keeps. */
  lemma {:induction false} DownloadIsRun(a: Artifact, s: State, exchanges: seq<Exchange>) returns (events: seq<Event>)
    ensures DownloadFiles(a, s, exchanges) == Run(a, s, events)
    decreases |exchanges|, if s.task.Next? then |a| + 1 - s.task.index else 0
  {
    if !s.task.Next? {
      events := [];
    } else if s.task.index >= |a| {
      events := [Skip];
      assert Run(a, s, events) == Run(a, Step(a, s, Skip), []);
    } else if a[s.task.index].name in s.files {
      var rest := DownloadIsRun(a, Step(a, s, Skip), exchanges);
      events := [Skip] + rest;
      assert events[1..] == rest;
    } else if exchanges == [] {
      events := [Fail];
      assert Run(a, s, events) == Run(a, Step(a, s, Fail), []);
    } else {
      var rest := DownloadIsRun(a, Run(a, s, FileEvents(exchanges[0])), exchanges[1..]);
      events := FileEvents(exchanges[0]) + rest;
      RunAppend(a, s, FileEvents(exchanges[0]), rest);
    }
  }

  /** So a download, however it goes, ends with pinned files only. */
  lemma DownloadKeepsPins(a: Artifact, s: State, exchanges: seq<Exchange>)
    requires DistinctNames(a) && Pinned(a, s.files) && TaskOk(a, s)
    ensures Pinned(a, DownloadFiles(a, s, exchanges).files)
  {
    var events := DownloadIsRun(a, s, exchanges);
    InstalledFilesArePinned(a, s, events);
  }
}
