/** The store, the downloader and the owner's actions as one object: loops over chunks and files,
each method tied to the steps of the download. */
module DownloadService {
  import opened Prelude
  import opened Download
  import D = Download

  const CHUNK_BYTES: nat := 1024 * 1024

  /** How a response stream ends: normally, broken off, or with the task cancelled. */
  datatype Ending = Ended | Broken | Cancelled

  datatype Exchange = Exchange(response: Response, sizes: seq<nat>, ending: Ending)

  /** Bytes still missing after chunks of these sizes. */
  function Remaining(total: nat, sizes: seq<nat>): nat
    decreases |sizes|
  {
    if sizes == [] then total else Remaining(total - Min(sizes[0], total), sizes[1..])
  }

  function Chunks(sizes: seq<nat>): (r: seq<Event>)
    ensures |r| == |sizes| && forall i :: 0 <= i < |r| ==> r[i] == Chunk(sizes[i])
  {
    if sizes == [] then [] else [Chunk(sizes[0])] + Chunks(sizes[1..])
  }

  /** A stream that ends before its body is complete is an error of the client. */
  function LastEvent(x: Exchange): Event {
    match x.ending
    case Ended => if Remaining(|x.response.body|, x.sizes) == 0 then Close else Fail
    case Broken => Fail
    case Cancelled => Cancel
  }

  function FileEvents(x: Exchange): seq<Event> {
    [Open(x.response)] + Chunks(x.sizes) + [LastEvent(x)]
  }

  /** Files in order: installed ones are skipped, each other one takes the next exchange. */
  function DownloadFiles(a: Artifact, s: State, exchanges: seq<Exchange>): State
    decreases |exchanges|, if s.task.Next? then |a| + 1 - s.task.index else 0
  {
    if !s.task.Next? then s
    else if s.task.index >= |a| then Step(a, s, Skip)
    else if a[s.task.index].name in s.files then DownloadFiles(a, Step(a, s, Skip), exchanges)
    else if exchanges == [] then Step(a, s, Fail)
    else DownloadFiles(a, Run(a, s, FileEvents(exchanges[0])), exchanges[1..])
  }

  lemma FileEventsRun(a: Artifact, s: State, x: Exchange)
    ensures Run(a, s, FileEvents(x))
         == Step(a, Run(a, Step(a, s, Open(x.response)), Chunks(x.sizes)), LastEvent(x))
  {
    var s1 := Step(a, s, Open(x.response));
    RunAppend(a, s, [Open(x.response)] + Chunks(x.sizes), [LastEvent(x)]);
    RunAppend(a, s, [Open(x.response)], Chunks(x.sizes));
    assert Run(a, s, [Open(x.response)]) == Run(a, s1, []);
    var s2 := Run(a, s1, Chunks(x.sizes));
    assert Run(a, s2, [LastEvent(x)]) == Run(a, Step(a, s2, LastEvent(x)), []);
  }

  lemma ChunksFrom(sizes: seq<nat>, i: nat)
    requires i < |sizes|
    ensures Chunks(sizes[i..]) == [Chunk(sizes[i])] + Chunks(sizes[i + 1..])
    ensures forall total: nat :: Remaining(total, sizes[i..]) == Remaining(total - Min(sizes[i], total), sizes[i + 1..])
  {
    assert sizes[i..][0] == sizes[i] && sizes[i..][1..] == sizes[i + 1..];
  }

  /** Nothing arrives for a task that is over. */
  lemma {:induction false} IdleRun(a: Artifact, s: State, events: seq<Event>)
    requires s.task.Idle? && forall i :: 0 <= i < |events| ==> events[i].Chunk?
    ensures Run(a, s, events) == s
    decreases |events|
  {
    if events != [] { IdleRun(a, s, events[1..]); }
  }

  class EmbeddingModelService {
    const artifact: Artifact
    var files: map<string, Bytes>
    var partials: map<string, Bytes>
    var directory: bool
    var task: Task
    var failed: bool
    var reports: seq<nat>

    constructor (artifact: Artifact)
      ensures View() == EMPTY && this.artifact == artifact
    {
      this.artifact := artifact;
      files, partials, directory, task, failed, reports := map[], map[], false, Idle, false, [];
    }

    ghost function View(): State
      reads this
    {
      State(files, partials, directory, task, failed, reports)
    }

    /** Hash a file chunk by chunk. */
    static method FileSha256(bytes: Bytes) returns (digest: Digest)
      ensures digest == Sha256(bytes)
    {
      var at := 0;
      digest := Sha256([]);
      while at < |bytes|
        invariant at <= |bytes|
        invariant digest == Sha256(bytes[..at])
      {
        var n := Min(CHUNK_BYTES, |bytes| - at);
        assert bytes[..at] + bytes[at..at + n] == bytes[..at + n];
        digest := Sha256(digest.preimage + bytes[at..at + n]);
        at := at + n;
      }
      assert bytes[..at] == bytes;
    }

    method Activate(file: ModelFile) returns (ok: bool)
      requires file.name in partials
      modifies this`files, this`partials
      ensures (View(), ok) == D.Activate(old(View()), file)
    {
      var digest := FileSha256(partials[file.name]);
      ok := digest == file.pin;
      if ok {
        files := files[file.name := partials[file.name]];
      }
      partials := partials - {file.name};
    }

    method InstalledSize(except: Option<string>) returns (total: nat)
      ensures total == InstalledBytes(artifact, files, except)
    {
      total := 0;
      for i := 0 to |artifact|
        invariant total + InstalledBytes(artifact[i..], files, except) == InstalledBytes(artifact, files, except)
      {
        var name := artifact[i].name;
        assert artifact[i..][1..] == artifact[i + 1..];
        if name in files && Some(name) != except {
          total := total + |files[name]|;
        }
      }
    }

    method IsInstalled() returns (installed: bool)
      ensures installed == Installed(artifact, files)
    {
      for i := 0 to |artifact|
        invariant forall j :: 0 <= j < i ==> artifact[j].name in files
      {
        if artifact[i].name !in files { return false; }
      }
      return true;
    }

    /** Refused while a download runs, when everything is installed, and when the policy denies it.
    The new task makes the directory before it first waits. */
    method StartDownload(allowed: bool) returns (started: bool)
      modifies this
      ensures View() == Step(artifact, old(View()), Start(allowed))
      ensures started == (old(task).Idle? && !Installed(artifact, files) && allowed)
    {
      if !task.Idle? { return false; }
      var installed := IsInstalled();
      if installed || !allowed { return false; }
      task, directory, failed, reports := Next(0), true, false, [];
      return true;
    }

    method CancelDownload() returns (cancelled: bool)
      modifies this`task, this`failed
      ensures View() == Step(artifact, old(View()), Cancel) && cancelled == !old(task).Idle?
    {
      if task.Idle? { return false; }
      task, failed := Idle, false;
      return true;
    }

    method RemoveModel() returns (removed: bool)
      modifies this`files, this`partials, this`directory, this`failed
      ensures View() == Step(artifact, old(View()), Remove) && removed == (task.Idle? && old(directory))
    {
      if !task.Idle? || !directory { return false; }
      files, partials, directory, failed := map[], map[], false, false;
      return true;
    }

    /** Copy the owner's file into the partial, chunk by chunk; with `dies` only that many of them. */
    method CopyIn(name: string, source: Bytes, dies: Option<nat>)
      modifies this`partials, this`directory
      ensures var copied := if dies.None? then |source| else Min(dies.value * CHUNK_BYTES, |source|);
        partials == old(partials)[name := source[..copied]] && directory
    {
      partials, directory := partials[name := []], true;
      var at, chunks := 0, 0;
      while at < |source| && dies != Some(chunks)
        invariant at == Min(chunks * CHUNK_BYTES, |source|)
        invariant partials == old(partials)[name := source[..at]] && directory
        invariant dies.None? || chunks <= dies.value
        decreases |source| - at
      {
        var n := Min(CHUNK_BYTES, |source| - at);
        assert source[..at] + source[at..at + n] == source[..at + n];
        partials := partials[name := partials[name] + source[at..at + n]];
        at, chunks := at + n, chunks + 1;
      }
    }

    /** Copy the owner's file into the partial, verify it and move it into place. With `dies` the
    process stops after that many chunks were copied. */
    method ImportFile(name: string, source: Bytes, dies: Option<nat>) returns (ok: bool)
      modifies this
      ensures View() == Step(artifact, old(View()),
        if dies.None? then Import(name, source) else CrashedImport(name, source, dies.value * CHUNK_BYTES))
      ensures ok ==> name in files && files[name] == source
    {
      var file := FileNamed(artifact, name);
      if !task.Idle? || file.None? { return false; }
      CopyIn(name, source, dies);
      if dies.Some? {
        failed := false;
        return false;
      }
      assert source[..|source|] == source;
      ok := Activate(file.value);
      if ok { failed := false; }
    }

    /** Ask for the missing part and open the partial for appending, or empty it. */
    method OpenPartial(r: Response) returns (streaming: bool)
      requires task.Next? && task.index < |artifact| && artifact[task.index].name !in files
      modifies this
      ensures View() == Step(artifact, old(View()), Open(r))
      ensures streaming <==> CanStream(artifact, View())
      ensures streaming ==> task.rest == r.body
      ensures !streaming ==> task.Idle?
    {
      var file := artifact[task.index];
      var offset := if file.name in partials then |partials[file.name]| else 0;
      var completed := InstalledSize(Some(file.name));
      if r.status != 200 && r.status != 206 {
        task, failed := Idle, true;
        return false;
      }
      var resumed := r.status == 206 && offset > 0;
      if !resumed { partials := partials[file.name := []]; }
      var expected := ExpectedBytes(r, file, resumed, offset);
      task := Streaming(task.index, completed, if resumed then offset else 0, expected, r.body);
      return true;
    }

    /** Append one chunk and report the bytes on disk. */
    method ReceiveChunk(size: nat)
      requires CanStream(artifact, View())
      modifies this`partials, this`task, this`reports
      ensures View() == Step(artifact, old(View()), Chunk(size)) && CanStream(artifact, View())
      ensures |task.rest| == |old(task).rest| - Min(size, |old(task).rest|)
    {
      var name := artifact[task.index].name;
      var chunk := task.rest[..Min(size, |task.rest|)];
      var written := task.written + |chunk|;
      partials := partials[name := partials[name] + chunk];
      task := task.(written := written, rest := task.rest[|chunk|..]);
      reports := reports + [task.completed + written];
    }

    /** Append each chunk as it arrives. */
    method ReceiveChunks(sizes: seq<nat>)
      requires CanStream(artifact, View())
      modifies this`partials, this`task, this`reports
      ensures View() == Run(artifact, old(View()), Chunks(sizes)) && CanStream(artifact, View())
      ensures |task.rest| == Remaining(|old(task).rest|, sizes)
    {
      var i := 0;
      while i < |sizes|
        invariant i <= |sizes| && CanStream(artifact, View())
        invariant Remaining(|old(task).rest|, sizes) == Remaining(|task.rest|, sizes[i..])
        invariant Run(artifact, old(View()), Chunks(sizes)) == Run(artifact, View(), Chunks(sizes[i..]))
      {
        ChunksFrom(sizes, i);
        ReceiveChunk(sizes[i]);
        i := i + 1;
      }
    }

    /** The stream is over: verify and activate what arrived, or give up. */
    method EndStream(x: Exchange)
      requires CanStream(artifact, View()) && |task.rest| == Remaining(|x.response.body|, x.sizes)
      modifies this
      ensures View() == Step(artifact, old(View()), LastEvent(x)) && !task.Streaming?
    {
      if x.ending == Ended && task.rest == [] {
        var ok := Activate(artifact[task.index]);
        task, failed := if ok then Next(task.index + 1) else Idle, failed || !ok;
      } else {
        task, failed := Idle, x.ending != Cancelled;
      }
    }

    /** Stream one file into its partial, then activate it. */
    method DownloadFile(x: Exchange)
      requires task.Next? && task.index < |artifact| && artifact[task.index].name !in files
      modifies this
      ensures View() == Run(artifact, old(View()), FileEvents(x))
      ensures !task.Streaming?
    {
      FileEventsRun(artifact, View(), x);
      var streaming := OpenPartial(x.response);
      if !streaming {
        IdleRun(artifact, View(), Chunks(x.sizes));
        return;
      }
      ReceiveChunks(x.sizes);
      EndStream(x);
    }

    /** Fetch every missing file in order; the first failure ends the download. */
    method RunDownload(exchanges: seq<Exchange>)
      requires task.Next?
      modifies this
      ensures View() == DownloadFiles(artifact, old(View()), exchanges)
      ensures task.Idle?
    {
      var k := 0;
      ghost var s0 := View();
      while task.Next? && task.index < |artifact|
        invariant k <= |exchanges| && !task.Streaming?
        invariant DownloadFiles(artifact, s0, exchanges) == DownloadFiles(artifact, View(), exchanges[k..])
        decreases |exchanges| - k, if task.Next? then |artifact| + 1 - task.index else 0
      {
        if artifact[task.index].name in files {
          task := Next(task.index + 1);
        } else if k == |exchanges| {
          task, failed := Idle, true;
        } else {
          assert exchanges[k..][1..] == exchanges[k + 1..];
          DownloadFile(exchanges[k]);
          k := k + 1;
        }
      }
      task := Idle;
    }
  }
}
