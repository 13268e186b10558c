/** Runs from the empty store into the cases where a download falls short. */
module DownloadExamples {
  import opened Prelude
  import opened Download
  import opened DownloadSafety

  /** One file whose upstream content is these bytes. */
  function OneFile(name: string, content: Bytes): Artifact {
    [ModelFile(name, Sha256(content), |content|)]
  }

  /** The daemon stops after the last chunk and before the verification. */
  function StopsBeforeActivation(content: Bytes): seq<Event> {
    [Start(true), Open(Response(200, None, content)), Chunk(|content|), Crash]
  }

  /** Where that leaves the store: the whole content in the partial file, and no task. */
  function Stopped(name: string, content: Bytes): State {
    State(map[], map[name := content], true, Idle, false, [|content|])
  }

  lemma StopsSteps(name: string, content: Bytes)
    ensures var a := OneFile(name, content); var e := StopsBeforeActivation(content);
      var s1 := State(map[], map[], true, Next(0), false, []);
      var s2 := State(map[], map[name := []], true, Streaming(0, 0, 0, |content|, content), false, []);
      var s3 := State(map[], map[name := content], true, Streaming(0, 0, |content|, |content|, []), false, [|content|]);
      && Step(a, EMPTY, e[0]) == s1 && Step(a, s1, e[1]) == s2 && Step(a, s2, e[2]) == s3
      && Step(a, s3, e[3]) == Stopped(name, content)
  {
    var a := OneFile(name, content);
    assert a[0].name !in EMPTY.files && !Installed(a, EMPTY.files);
    var none: map<string, Bytes> := map[];
    assert InstalledBytes(a[1..], none, Some(name)) == 0 && InstalledBytes(a, none, Some(name)) == 0;
    assert none[name := []] == map[name := []];
    assert content[..|content|] == content && [] + content == content && content[|content|..] == [];
  }

  lemma StopsRun(name: string, content: Bytes)
    ensures Run(OneFile(name, content), EMPTY, StopsBeforeActivation(content)) == Stopped(name, content)
  {
    var a, e := OneFile(name, content), StopsBeforeActivation(content);
    StopsSteps(name, content);
    var e1 := e[1..];
    var e2 := e1[1..];
    var e3 := e2[1..];
    assert e1[0] == e[1] && e2[0] == e[2] && e3[0] == e[3] && e3[1..] == [];
    var s1 := Step(a, EMPTY, e[0]);
    var s2 := Step(a, s1, e1[0]);
    var s3 := Step(a, s2, e2[0]);
    assert Run(a, s3, e3) == Run(a, Step(a, s3, e3[0]), []);
    assert Run(a, s1, e1) == Run(a, s2, e2) == Run(a, s3, e3);
  }

  /** The trap is reached from the empty store: any file, served honestly, and a stop at that moment;
  after it no strict run of downloads installs the file. */
  lemma CompletePartialExample(name: string, content: Bytes, upstream: Upstream, later: seq<Event>)
    requires content != [] && upstream(name) == content
    requires StrictRun(OneFile(name, content), upstream, Stopped(name, content), later)
    requires forall i :: 0 <= i < |later| ==> Downloads(later[i])
    ensures var a := OneFile(name, content);
      && Run(a, EMPTY, StopsBeforeActivation(content)) == Stopped(name, content)
      && StrictEvent(a, upstream, Step(a, EMPTY, Start(true)), StopsBeforeActivation(content)[1])
      && name !in Run(a, Stopped(name, content), later).files
  {
    StopsRun(name, content);
    CompletePartialNeverInstalls(OneFile(name, content), upstream, Stopped(name, content), name, later);
  }

  /** A foreign partial is reached from the empty store: the owner imports the wrong file and the
  daemon stops while it is copied. */
  lemma ForeignPartialExample(name: string, upstream: Upstream)
    requires upstream(name) == [1]
    ensures var a := OneFile(name, [1]); var s := Step(a, EMPTY, CrashedImport(name, [2], 1));
      PartialsOk(a, upstream, EMPTY) && s.partials == map[name := [2]] && !PartialsOk(a, upstream, s)
  {
    var a := OneFile(name, [1]);
    assert [2][..Min(1, |[2]|)] == [2];
    var s := Step(a, EMPTY, CrashedImport(name, [2], 1));
    var foreign: Bytes := [2];
    assert s.partials[name] == foreign && foreign[0] == 2;
  }
}
