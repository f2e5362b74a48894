/** Model-file lookup of the worker: `~` expansion and the search order
  * explicit path, ./model-dir, ~/model-dir, over an abstract file system. */
module Paths {
  import opened Wrappers

  /** A path as the program builds it: a string it was given, or the join
    * `base / leaf` of `std::filesystem::path`, whose separator rules are
    * left abstract. */
  datatype Path = Plain(s: string) | Join(base: Path, leaf: string)

  /** The path names a home-relative location `~`, `~/x` or `~\x`. */
  predicate TildePrefixed(path: string) {
    |path| > 0 && path[0] == '~' && (|path| == 1 || path[1] == '/' || path[1] == '\\')
  }

  /** `ExpandUser(path)` with the home directory as a parameter (empty when
    * no home variable is set). */
  function ExpandUser(path: string, home: string): (r: Path)
    ensures !TildePrefixed(path) || home == "" ==> r == Plain(path)
    ensures TildePrefixed(path) && home != "" && |path| == 1 ==> r == Plain(home)
    ensures TildePrefixed(path) && home != "" && |path| > 1 ==> r == Join(Plain(home), path[2..])
  {
    if |path| > 0 && path[0] == '~' && home != "" then
      if |path| == 1 then Plain(home)
      else if path[1] == '/' || path[1] == '\\' then Join(Plain(home), path[2..])
      else Plain(path)
    else Plain(path)
  }

  /** `~user/x` is not expanded. */
  lemma TildeUserUnchanged(home: string)
    ensures ExpandUser("~alice/models", home) == Plain("~alice/models")
  {
    assert !TildePrefixed("~alice/models");
  }

  /** `is_absolute() || has_parent_path()` on a POSIX system: a given string
    * has a parent or a root exactly when it holds a '/', and a joined path
    * always has its base as parent. */
  predicate Explicit(p: Path) {
    match p
    case Plain(s) => '/' in s
    case Join(_, _) => true
  }

  /** The file-system facts the lookup depends on. */
  datatype Fs = Fs(isFile: Path -> bool, cwd: Path, home: string)

  function InCwd(name: string, fs: Fs): Path {
    Join(Join(fs.cwd, "model-dir"), name)
  }

  function InHome(name: string, fs: Fs): Path {
    Join(Join(Plain(fs.home), "model-dir"), name)
  }

  /** The places looked at, in order. */
  function Candidates(name: string, fs: Fs): seq<Path> {
    var p := ExpandUser(name, fs.home);
    if Explicit(p) then [p]
    else [p, InCwd(name, fs)] + (if fs.home != "" then [InHome(name, fs)] else [])
  }

  /** The first candidate that is a regular file. */
  function FirstFile(cands: seq<Path>, isFile: Path -> bool): (r: Option<Path>)
    ensures r.Some? ==> r.value in cands && isFile(r.value)
    ensures r.None? <==> forall k :: 0 <= k < |cands| ==> !isFile(cands[k])
    ensures r.Some? ==> exists i :: 0 <= i < |cands| && cands[i] == r.value && forall j :: 0 <= j < i ==> !isFile(cands[j])
  {
    if cands == [] then None
    else if isFile(cands[0]) then Some(cands[0])
    else
      var r := FirstFile(cands[1..], isFile);
      assert r.Some? ==> exists i :: 0 < i < |cands| && cands[i] == r.value && forall j :: 0 <= j < i ==> !isFile(cands[j]) by {
        if r.Some? {
          var i :| 0 <= i < |cands[1..]| && cands[1..][i] == r.value && forall j :: 0 <= j < i ==> !isFile(cands[1..][j]);
          assert forall j :: 0 <= j < i + 1 ==> !isFile(cands[j]) by {
            forall j | 0 <= j < i + 1 ensures !isFile(cands[j]) {
              if j > 0 { assert cands[j] == cands[1..][j - 1]; }
            }
          }
          assert cands[i + 1] == r.value;
        }
      }
      r
  }

  /** `ResolveModelFile(name)`; None stands for the empty string it returns
    * on failure. */
  function ResolveModelFile(name: string, fs: Fs): (r: Option<Path>)
    ensures r.Some? ==> fs.isFile(r.value)
    ensures r.Some? ==> r.value in Candidates(name, fs)
  {
    var p := ExpandUser(name, fs.home);
    if fs.isFile(p) then Some(p)
    else if Explicit(p) then None
    else if fs.isFile(InCwd(name, fs)) then Some(InCwd(name, fs))
    else if fs.home != "" && fs.isFile(InHome(name, fs)) then Some(InHome(name, fs))
    else None
  }

  /** The lookup is the first file among the candidates, in order. */
  lemma ResolveIsFirstFile(name: string, fs: Fs)
    ensures ResolveModelFile(name, fs) == FirstFile(Candidates(name, fs), fs.isFile)
  {
    var c := Candidates(name, fs);
    if !Explicit(ExpandUser(name, fs.home)) {
      assert c[1..][1..] == (if fs.home != "" then [InHome(name, fs)] else []);
    }
  }

  /** A path the user spelled out that is not a file is an error; the model
    * directories are not searched for it. */
  lemma ExplicitMissingFails(name: string, fs: Fs)
    requires Explicit(ExpandUser(name, fs.home)) && !fs.isFile(ExpandUser(name, fs.home))
    ensures ResolveModelFile(name, fs) == None
  {
  }

  /** A bare file name is found in ./model-dir before ~/model-dir. */
  lemma CwdBeforeHome(name: string, fs: Fs)
    requires '/' !in name && !TildePrefixed(name)
    requires !fs.isFile(Plain(name)) && fs.isFile(InCwd(name, fs))
    ensures ResolveModelFile(name, fs) == Some(InCwd(name, fs))
  {
  }

  /** The names given to the worker (`VibeInputOptions`). */
  datatype Options = Options(vadModel: string, asrModel: string, tokens: string)

  datatype Models = Models(vad: Path, asr: Path, tokens: Path)

  /** Which lookup failed, with the name that was looked for. */
  datatype Missing = MissingVad(name: string) | MissingAsr(name: string) | MissingTokens(name: string)

  function OrDefault(s: string, default: string): string {
    if s == "" then default else s
  }

  /** The start of `WorkerMain`: default the three names, then resolve them
    * in order, stopping at the first that cannot be found. */
  function ResolveModels(opts: Options, fs: Fs): (r: Result<Models, Missing>)
    ensures var vad := OrDefault(opts.vadModel, "silero_vad.int8.onnx");
      var asr := OrDefault(opts.asrModel, "model.int8.onnx");
      var tok := OrDefault(opts.tokens, "tokens.txt");
      && (r.Ok? <==> ResolveModelFile(vad, fs).Some? && ResolveModelFile(asr, fs).Some? && ResolveModelFile(tok, fs).Some?)
      && (r.Ok? ==> r.value == Models(ResolveModelFile(vad, fs).value, ResolveModelFile(asr, fs).value, ResolveModelFile(tok, fs).value))
      && (r == Err(MissingVad(vad)) <==> ResolveModelFile(vad, fs).None?)
      && (r == Err(MissingAsr(asr)) <==> ResolveModelFile(vad, fs).Some? && ResolveModelFile(asr, fs).None?)
      && (r == Err(MissingTokens(tok)) <==> ResolveModelFile(vad, fs).Some? && ResolveModelFile(asr, fs).Some? && ResolveModelFile(tok, fs).None?)
  {
    var vad := OrDefault(opts.vadModel, "silero_vad.int8.onnx");
    var asr := OrDefault(opts.asrModel, "model.int8.onnx");
    var tok := OrDefault(opts.tokens, "tokens.txt");
    match ResolveModelFile(vad, fs)
    case None => Err(MissingVad(vad))
    case Some(v) =>
      match ResolveModelFile(asr, fs)
      case None => Err(MissingAsr(asr))
      case Some(a) =>
        match ResolveModelFile(tok, fs)
        case None => Err(MissingTokens(tok))
        case Some(t) => Ok(Models(v, a, t))
  }
}
