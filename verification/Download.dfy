/** Resumable verified download of a pinned model artifact (model_artifacts.py,
embedding_models.py), as steps over the installed files, the partial files and the one task. */
module Download {
  import opened Prelude

  datatype ModelFile = ModelFile(name: string, pin: Digest, approximate: nat)

  /** The pinned files of one artifact; names are distinct. */
  type Artifact = seq<ModelFile>

  predicate DistinctNames(a: Artifact) {
    forall i, j :: 0 <= i < j < |a| ==> a[i].name != a[j].name
  }

  datatype Response = Response(status: nat, length: Option<nat>, body: Bytes)

  /** What the download task is doing: about to take file `index`, or streaming it. `rest` is the
  part of the response body that has not arrived yet. */
  datatype Task =
    | Idle
    | Next(index: nat)
    | Streaming(index: nat, completed: nat, written: nat, expected: nat, rest: Bytes)

  /** `directory` says that the artifact's directory is there. */
  datatype State = State(
    files: map<string, Bytes>, partials: map<string, Bytes>, directory: bool,
    task: Task, failed: bool, reports: seq<nat>)

  datatype Event =
    | Start(allowed: bool)     // whether the egress policy admits the download
    | Skip
    | Open(response: Response)
    | Chunk(size: nat)
    | Close
    | Fail
    | Cancel
    | Crash
    | Import(name: string, source: Bytes)
    | CrashedImport(name: string, source: Bytes, copied: nat)
    | Remove

  const EMPTY: State := State(map[], map[], false, Idle, false, [])

  // ---------- Reading the state ----------

  function FileNamed(a: Artifact, name: string): (r: Option<ModelFile>)
    ensures r.Some? ==> r.value in a && r.value.name == name
    decreases |a|
  {
    if a == [] then None else if a[0].name == name then Some(a[0]) else FileNamed(a[1..], name)
  }

  predicate Installed(a: Artifact, files: map<string, Bytes>) {
    forall i :: 0 <= i < |a| ==> a[i].name in files
  }

  /** Bytes of the installed files of the artifact, leaving out one name. */
  function InstalledBytes(a: Artifact, files: map<string, Bytes>, except: Option<string>): nat
    decreases |a|
  {
    if a == [] then 0
    else
      var size := if a[0].name in files && Some(a[0].name) != except then |files[a[0].name]| else 0;
      size + InstalledBytes(a[1..], files, except)
  }

  function Offset(partials: map<string, Bytes>, name: string): nat {
    if name in partials then |partials[name]| else 0
  }

  function ExpectedBytes(r: Response, file: ModelFile, resumed: bool, offset: nat): nat {
    if r.length.Some? then r.length.value + (if resumed then offset else 0)
    else if file.approximate < offset then offset else file.approximate
  }

  // ---------- Steps ----------

  /** The verified move into place; a mismatch discards the file. */
  function Activate(s: State, file: ModelFile): (State, bool)
    requires file.name in s.partials
  {
    var bytes := s.partials[file.name];
    if Sha256(bytes) == file.pin
    then (s.(files := s.files[file.name := bytes], partials := s.partials - {file.name}), true)
    else (s.(partials := s.partials - {file.name}), false)
  }

  function OpenStream(a: Artifact, s: State, r: Response): State
    requires s.task.Next? && s.task.index < |a|
  {
    var file := a[s.task.index];
    var offset := Offset(s.partials, file.name);
    if r.status != 200 && r.status != 206 then s.(task := Idle, failed := true)
    else
      var resumed := r.status == 206 && offset > 0;
      s.(partials := if resumed then s.partials else s.partials[file.name := []],
         task := Streaming(s.task.index, InstalledBytes(a, s.files, Some(file.name)), if resumed then offset else 0,
                           ExpectedBytes(r, file, resumed, offset), r.body))
  }

  function Receive(a: Artifact, s: State, size: nat): State
    requires s.task.Streaming? && s.task.index < |a| && a[s.task.index].name in s.partials
  {
    var name := a[s.task.index].name;
    var chunk := s.task.rest[..Min(size, |s.task.rest|)];
    var written := s.task.written + |chunk|;
    s.(partials := s.partials[name := s.partials[name] + chunk],
       task := s.task.(written := written, rest := s.task.rest[|chunk|..]),
       reports := s.reports + [s.task.completed + written])
  }

  function Finish(a: Artifact, s: State): State
    requires s.task.Streaming? && s.task.index < |a| && a[s.task.index].name in s.partials
  {
    var (t, ok) := Activate(s, a[s.task.index]);
    if ok then t.(task := Next(s.task.index + 1)) else t.(task := Idle, failed := true)
  }

  predicate CanStream(a: Artifact, s: State) {
    s.task.Streaming? && s.task.index < |a| && a[s.task.index].name in s.partials
  }

  /** An action that its guard refuses leaves the state as it is. */
  function Step(a: Artifact, s: State, e: Event): State {
    match e
    case Start(allowed) =>
      if !s.task.Idle? || Installed(a, s.files) || !allowed then s
      else s.(task := Next(0), directory := true, failed := false, reports := [])
    case Skip =>
      if !s.task.Next? then s
      else if s.task.index >= |a| then s.(task := Idle)
      else if a[s.task.index].name in s.files then s.(task := Next(s.task.index + 1))
      else s
    case Open(r) =>
      if s.task.Next? && s.task.index < |a| && a[s.task.index].name !in s.files then OpenStream(a, s, r) else s
    case Chunk(size) => if CanStream(a, s) then Receive(a, s, size) else s
    case Close => if CanStream(a, s) && s.task.rest == [] then Finish(a, s) else s
    case Fail => if s.task.Idle? then s else s.(task := Idle, failed := true)
    case Cancel => if s.task.Idle? then s else s.(task := Idle, failed := false)
    case Crash => s.(task := Idle, failed := false)
    case Import(name, source) =>
      if !s.task.Idle? || FileNamed(a, name).None? then s
      else
        var copied := s.(partials := s.partials[name := source], directory := true);
        var (t, ok) := Activate(copied, FileNamed(a, name).value);
        if ok then t.(failed := false) else t
    case CrashedImport(name, source, copied) =>
      if !s.task.Idle? || FileNamed(a, name).None? then s
      else s.(partials := s.partials[name := source[..Min(copied, |source|)]], directory := true, failed := false)
    case Remove =>
      if !s.task.Idle? || !s.directory then s
      else s.(files := map[], partials := map[], directory := false, failed := false)
  }

  function Run(a: Artifact, s: State, events: seq<Event>): State
    decreases |events|
  {
    if events == [] then s else Run(a, Step(a, s, events[0]), events[1..])
  }

  lemma {:induction false} RunAppend(a: Artifact, s: State, xs: seq<Event>, ys: seq<Event>)
    ensures Run(a, s, xs + ys) == Run(a, Run(a, s, xs), ys)
    decreases |xs|
  {
    if xs == [] {
      assert xs + ys == ys;
    } else {
      assert (xs + ys)[1..] == xs[1..] + ys;
      RunAppend(a, Step(a, s, xs[0]), xs[1..], ys);
    }
  }

  // ---------- The server ----------

  /** The bytes each file has upstream. */
  type Upstream = string -> Bytes

  /** Sections 14.2 and 15.3.7 of RFC 9110 over fixed content: 200 carries the whole content, 206
  the requested range, which must be satisfiable. Other statuses carry no file content. */
  ghost predicate Honours(content: Bytes, offset: nat, r: Response) {
    && (r.status == 200 ==> r.body == content)
    && (r.status == 206 ==> 0 < offset < |content| && r.body == content[offset..])
    && (r.length.Some? && (r.status == 200 || r.status == 206) ==> r.length.value == |r.body|)
  }

  ghost predicate HonestEvent(a: Artifact, upstream: Upstream, s: State, e: Event) {
    e.Open? && s.task.Next? && s.task.index < |a| ==>
      Honours(upstream(a[s.task.index].name), Offset(s.partials, a[s.task.index].name), e.response)
  }

  ghost predicate HonestRun(a: Artifact, upstream: Upstream, s: State, events: seq<Event>)
    decreases |events|
  {
    events == [] ||
    (HonestEvent(a, upstream, s, events[0]) && HonestRun(a, upstream, Step(a, s, events[0]), events[1..]))
  }
}
