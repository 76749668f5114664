/** The stand-alone parser (vlm_ocr_parser/pipeline.py): device choice with a
    CPU fallback, engine construction with one CPU retry on an unsupported GPU
    architecture, and parsing of one input or of a directory tree. */
module VlmPipeline {
  import opened Wrappers
  import opened Text
  import opened Ordering
  import opened Paths
  import opened Paddle

  /** `ParserConfig`; `outputDir` is `Path(output_dir)`. */
  datatype ParserConfig = ParserConfig(preferGpu: bool, useLayoutDetection: bool, formatBlockContent: bool, outputDir: PurePath)

  /** `ParserConfig()` with every field at its default. */
  const DefaultConfig: ParserConfig := ParserConfig(true, true, true, Parse("outputs"))

  /** What the environment does when a parser is built:
      - `mkdir`: whether `output_dir.mkdir(parents=True, exist_ok=True)`
        succeeds (it raises, for instance, `FileExistsError` when a file holds
        the name, or `PermissionError`);
      - whether paddle has CUDA compiled in;
      - whether `set_device("gpu")` followed by a one-element random tensor
        succeeds;
      - the `PaddleOCRVL` constructor. */
  datatype PaddleEnv = PaddleEnv(mkdir: PurePath -> Outcome<PyError>, compiledWithCuda: bool, gpuProbe: Outcome<PyError>, construct: Constructor)

  /** `_choose_device` */
  function ChooseDevice(preferGpu: bool, compiledWithCuda: bool, gpuProbe: Outcome<PyError>): (d: string)
    ensures d == "gpu" <==> preferGpu && compiledWithCuda && gpuProbe.Pass?
    ensures d == "cpu" <==> !(preferGpu && compiledWithCuda && gpuProbe.Pass?)
  {
    if preferGpu && compiledWithCuda then
      match gpuProbe
      case Pass => "gpu"
      case Fail(_) => "cpu"
    else "cpu"
  }

  /** A failing GPU probe is absorbed: the device falls back to the CPU and
      no exception leaves `_choose_device`. */
  lemma ProbeFailureFallsBackToCpu(preferGpu: bool, compiledWithCuda: bool, e: PyError)
    ensures ChooseDevice(preferGpu, compiledWithCuda, Fail(e)) == "cpu"
  {
  }

  const UnsupportedGpu: string := "Unsupported GPU architecture"

  /** Whether a construction error triggers the CPU retry. */
  predicate RetriesOnCpu(e: PyError, device: string) {
    e.kind == RuntimeError && Contains(e.message, UnsupportedGpu) && device != "cpu"
  }

  /** The outcome of `_create_pipeline`: the parser's device afterwards, the
      engine or the exception that escaped, and every configuration
      `PaddleOCRVL` was called with, in order. */
  datatype Creation = Creation(device: string, pipeline: Result<OcrPipeline, PyError>, attempts: seq<EngineConfig>)

  /** `VLMOcrParser._create_pipeline` */
  function CreatePipeline(device: string, config: ParserConfig, construct: Constructor): (c: Creation)
    ensures 1 <= |c.attempts| <= 2
    ensures c.attempts[0] == EngineConfig(device, config.useLayoutDetection, config.formatBlockContent)
    ensures |c.attempts| == 2 <==> construct(c.attempts[0]).Failure? && RetriesOnCpu(construct(c.attempts[0]).error, device)
    ensures |c.attempts| == 2 ==>
      c.attempts[1] == EngineConfig("cpu", config.useLayoutDetection, config.formatBlockContent) && c.device == "cpu"
    ensures |c.attempts| == 1 ==> c.device == device
    ensures c.pipeline == construct(c.attempts[|c.attempts| - 1])
    ensures forall a :: a in c.attempts ==>
      a.useLayoutDetection == config.useLayoutDetection && a.formatBlockContent == config.formatBlockContent
  {
    var first := EngineConfig(device, config.useLayoutDetection, config.formatBlockContent);
    match construct(first)
    case Success(pl) => Creation(device, Success(pl), [first])
    case Failure(e) =>
      if RetriesOnCpu(e, device) then
        var retry := EngineConfig("cpu", config.useLayoutDetection, config.formatBlockContent);
        Creation("cpu", construct(retry), [first, retry])
      else Creation(device, Failure(e), [first])
  }

  /** A constructor that fails on the GPU with an unsupported architecture
      and succeeds on the CPU yields a CPU engine after exactly two attempts. */
  lemma UnsupportedGpuRecoversOnCpu(device: string, config: ParserConfig, construct: Constructor, msg: string, pl: OcrPipeline)
    requires device != "cpu"
    requires construct(EngineConfig(device, config.useLayoutDetection, config.formatBlockContent)) == Failure(PyError(RuntimeError, msg))
    requires Contains(msg, UnsupportedGpu)
    requires construct(EngineConfig("cpu", config.useLayoutDetection, config.formatBlockContent)) == Success(pl)
    ensures CreatePipeline(device, config, construct) == Creation("cpu", Success(pl), [
      EngineConfig(device, config.useLayoutDetection, config.formatBlockContent),
      EngineConfig("cpu", config.useLayoutDetection, config.formatBlockContent)])
  {
  }

  /** Any other failure, or the same failure on the CPU, escapes unchanged
      after a single attempt and leaves the device as it was. */
  lemma OtherFailuresPropagate(device: string, config: ParserConfig, construct: Constructor, e: PyError)
    requires construct(EngineConfig(device, config.useLayoutDetection, config.formatBlockContent)) == Failure(e)
    requires !RetriesOnCpu(e, device)
    ensures CreatePipeline(device, config, construct) ==
      Creation(device, Failure(e), [EngineConfig(device, config.useLayoutDetection, config.formatBlockContent)])
  {
  }

  /** A constructed `VLMOcrParser`. */
  datatype Parser = Parser(config: ParserConfig, device: string, pipeline: OcrPipeline)

  /** `VLMOcrParser(config)`: the parser, or the exception its construction
      raised, together with the construction attempts made. */
  datatype ParserInit = ParserInit(parser: Result<Parser, PyError>, attempts: seq<EngineConfig>)

  /** `VLMOcrParser.__init__`: a failing `mkdir` raises before any device is
      chosen or engine built; otherwise the parser exists exactly when
      `_create_pipeline` on the chosen device returns an engine, holds that
      engine, and otherwise the construction error escapes. */
  function NewParser(config: Option<ParserConfig>, env: PaddleEnv): (r: ParserInit)
    ensures r.attempts == [] <==> env.mkdir(config.GetOr(DefaultConfig).outputDir).Fail?
    ensures env.mkdir(config.GetOr(DefaultConfig).outputDir).Fail? ==>
      r.parser == Failure(env.mkdir(config.GetOr(DefaultConfig).outputDir).error)
    ensures r.parser.Success? ==> r.parser.value.config == config.GetOr(DefaultConfig)
    ensures var cfg := config.GetOr(DefaultConfig);
      var c := CreatePipeline(ChooseDevice(cfg.preferGpu, env.compiledWithCuda, env.gpuProbe), cfg, env.construct);
      env.mkdir(cfg.outputDir).Pass? ==>
        && r.attempts == c.attempts
        && (r.parser.Success? <==> c.pipeline.Success?)
        && (r.parser.Success? ==> r.parser.value.pipeline == c.pipeline.value && r.parser.value.device == c.device)
        && (r.parser.Failure? ==> r.parser.error == c.pipeline.error)
  {
    var cfg := config.GetOr(DefaultConfig);
    match env.mkdir(cfg.outputDir)
    case Fail(e) => ParserInit(Failure(e), [])
    case Pass =>
      var device := ChooseDevice(cfg.preferGpu, env.compiledWithCuda, env.gpuProbe);
      var c := CreatePipeline(device, cfg, env.construct);
      match c.pipeline
      case Success(pl) => ParserInit(Success(Parser(cfg, c.device, pl)), c.attempts)
      case Failure(e) => ParserInit(Failure(e), c.attempts)
  }

  /** At most two engines are built, all with the configuration's flags; the
      first on the device `_choose_device` picked, and the parser keeps the
      device of the last one. */
  lemma NewParserAttempts(config: Option<ParserConfig>, env: PaddleEnv)
    ensures |NewParser(config, env).attempts| <= 2
    ensures var cfg := config.GetOr(DefaultConfig);
      forall a :: a in NewParser(config, env).attempts ==>
        a.useLayoutDetection == cfg.useLayoutDetection && a.formatBlockContent == cfg.formatBlockContent
    ensures |NewParser(config, env).attempts| > 0 ==>
      NewParser(config, env).attempts[0].device ==
      ChooseDevice(config.GetOr(DefaultConfig).preferGpu, env.compiledWithCuda, env.gpuProbe)
    ensures var r := NewParser(config, env);
      r.parser.Success? ==> r.parser.value.device == r.attempts[|r.attempts| - 1].device
  {
    var cfg := config.GetOr(DefaultConfig);
    var c := CreatePipeline(ChooseDevice(cfg.preferGpu, env.compiledWithCuda, env.gpuProbe), cfg, env.construct);
    if env.mkdir(cfg.outputDir).Pass? {
      assert NewParser(config, env).attempts == c.attempts;
    }
  }

  /** `create_default_parser`: whatever the environment, every engine it
      builds has layout detection and block-content formatting enabled, and
      the device preference and output directory are the caller's. */
  function CreateDefaultParser(preferGpu: bool, outputDir: string, env: PaddleEnv): (r: ParserInit)
    ensures forall a :: a in r.attempts ==> a.useLayoutDetection && a.formatBlockContent
    ensures r.parser.Success? ==>
      r.parser.value.config.preferGpu == preferGpu && r.parser.value.config.outputDir == Parse(outputDir)
  {
    NewParserAttempts(Some(ParserConfig(preferGpu, true, true, Parse(outputDir))), env);
    NewParser(Some(ParserConfig(preferGpu, true, true, Parse(outputDir))), env)
  }

  /** A file written by `save_to_markdown` / `save_to_json` for the result at
      `index` of the `predict` call on `input`. */
  datatype SaveAction =
    | SaveMarkdown(input: string, index: nat, savePath: string)
    | SaveJson(input: string, index: nat, savePath: string)

  /** What `parse` returns (the raw results) and the files it asks the
      results to save, in order. */
  datatype Parsed = Parsed(results: seq<EngineOutput>, saves: seq<SaveAction>)

  /** The saves for results `from` onwards of the call on `input`, which
      produced `count` results. */
  function Saves(input: string, from: nat, count: nat, saveMarkdown: bool, saveJson: bool, dir: string): (s: seq<SaveAction>)
    requires from <= count
    ensures |s| == (count - from) * ((if saveMarkdown then 1 else 0) + (if saveJson then 1 else 0))
    ensures forall a :: a in s ==> a.input == input && from <= a.index < count && a.savePath == dir
    ensures forall k :: from <= k < count ==>
      (saveMarkdown <==> SaveMarkdown(input, k, dir) in s) && (saveJson <==> SaveJson(input, k, dir) in s)
    decreases count - from
  {
    if from == count then []
    else
      (if saveMarkdown then [SaveMarkdown(input, from, dir)] else [])
      + (if saveJson then [SaveJson(input, from, dir)] else [])
      + Saves(input, from + 1, count, saveMarkdown, saveJson, dir)
  }

  /** The defaults of the `save_markdown` and `save_json` arguments of
      `parse` and `parse_dir`. */
  const DefaultSaveMarkdown: bool := true
  const DefaultSaveJson: bool := false

  /** `VLMOcrParser.parse`; a flag is `None` when the caller leaves its
      default. The engine's results for the input are returned as they are;
      with a save flag set, each result also saves itself into the output
      directory in the requested formats. Prediction errors escape. */
  function ParseInput(parser: Parser, inputPath: string, saveMarkdown: Option<bool>, saveJson: Option<bool>, predict: Predictor): (r: Result<Parsed, PyError>)
    ensures r.Failure? <==> predict(parser.pipeline, inputPath).Failure?
    ensures r.Failure? ==> r.error == predict(parser.pipeline, inputPath).error
    ensures r.Success? ==> r.value.results == predict(parser.pipeline, inputPath).value
    ensures r.Success? && !saveMarkdown.GetOr(DefaultSaveMarkdown) && !saveJson.GetOr(DefaultSaveJson) ==> r.value.saves == []
    ensures r.Success? ==> forall k :: 0 <= k < |r.value.results| ==>
      (saveMarkdown.GetOr(DefaultSaveMarkdown) <==> SaveMarkdown(inputPath, k, Render(parser.config.outputDir)) in r.value.saves) &&
      (saveJson.GetOr(DefaultSaveJson) <==> SaveJson(inputPath, k, Render(parser.config.outputDir)) in r.value.saves)
    ensures r.Success? ==> forall a :: a in r.value.saves ==>
      a.input == inputPath && a.index < |r.value.results| && a.savePath == Render(parser.config.outputDir)
  {
    var md, js := saveMarkdown.GetOr(DefaultSaveMarkdown), saveJson.GetOr(DefaultSaveJson);
    var results :- predict(parser.pipeline, inputPath);
    if !(md || js) then Success(Parsed(results, []))
    else Success(Parsed(results, Saves(inputPath, 0, |results|, md, js, Render(parser.config.outputDir))))
  }

  /** Called with its defaults, `parse` saves every result as Markdown and
      nothing as JSON. */
  lemma ParseDefaultsSaveMarkdownOnly(parser: Parser, inputPath: string, predict: Predictor)
    ensures var r := ParseInput(parser, inputPath, None, None, predict);
      r.Success? ==>
        && (forall a :: a in r.value.saves ==> a.SaveMarkdown?)
        && forall k :: 0 <= k < |r.value.results| ==>
             SaveMarkdown(inputPath, k, Render(parser.config.outputDir)) in r.value.saves
  {
    var r := ParseInput(parser, inputPath, None, None, predict);
    if r.Success? {
      forall a | a in r.value.saves ensures a.SaveMarkdown? {
        assert a.SaveJson? ==> a == SaveJson(inputPath, a.index, Render(parser.config.outputDir));
      }
    }
  }

  /** The suffixes `parse_dir` searches for when none are given. */
  const DefaultPatterns: seq<string> := [".png", ".jpg", ".jpeg", ".pdf"]

  /** `input_dir.rglob(pattern)`, an oracle over the directory tree. */
  type Globber = (PurePath, string) -> seq<PurePath>

  /** The files every pattern's search turned up, pattern by pattern. */
  function Globbed(dir: PurePath, patterns: seq<string>, rglob: Globber): (fs: seq<PurePath>)
    ensures forall f :: f in fs <==> exists k :: 0 <= k < |patterns| && f in rglob(dir, "*" + patterns[k])
    decreases |patterns|
  {
    if |patterns| == 0 then []
    else
      var rest := Globbed(dir, patterns[1..], rglob);
      assert forall k :: 1 <= k < |patterns| ==> patterns[k] == patterns[1..][k - 1];
      rglob(dir, "*" + patterns[0]) + rest
  }

  /** `sorted(set(files))` over everything the patterns matched. */
  function CollectFiles(dir: PurePath, patterns: seq<string>, rglob: Globber): (fs: seq<PurePath>)
    ensures StrictlySorted(fs, PathLess)
    ensures forall f :: f in fs <==> exists k :: 0 <= k < |patterns| && f in rglob(dir, "*" + patterns[k])
  {
    PathLessIsStrictTotal();
    SortUnique(Globbed(dir, patterns, rglob), PathLess)
  }

  /** In a strictly sorted file list no two files print alike, so keying the
      results by `str(f)` loses no file. */
  lemma RenderedDistinct(files: seq<PurePath>)
    requires StrictlySorted(files, PathLess)
    ensures forall i, j :: 0 <= i < j < |files| ==> Render(files[i]) != Render(files[j])
  {
    PathLessIsStrictTotal();
    forall i, j | 0 <= i < j < |files| ensures Render(files[i]) != Render(files[j]) {
      assert PathLess(files[i], files[j]);
      if Render(files[i]) == Render(files[j]) {
        RenderInjective(files[i], files[j]);
      }
    }
  }

  /** One item of the dict `parse_dir` builds: `str(f)` and `parse(f)`. */
  datatype DirEntry = DirEntry(key: string, results: seq<EngineOutput>)

  /** What a run of `parse_dir` leaves behind: the dict it returns, as its
      items in insertion order, or the exception that escaped; and every save
      made before the loop ended, which stays on disk either way. */
  datatype DirRun = DirRun(outcome: Result<seq<DirEntry>, PyError>, saves: seq<SaveAction>)

  /** How many leading files the engine parses before its first failure. */
  function ParsedPrefix(parser: Parser, files: seq<PurePath>, predict: Predictor): (n: nat)
    ensures n <= |files|
    ensures forall j :: 0 <= j < n ==> predict(parser.pipeline, Render(files[j])).Success?
    ensures n < |files| ==> predict(parser.pipeline, Render(files[n])).Failure?
    decreases |files|
  {
    if |files| == 0 || predict(parser.pipeline, Render(files[0])).Failure? then 0
    else
      var n := ParsedPrefix(parser, files[1..], predict);
      assert forall j :: 1 <= j < |files| ==> files[j] == files[1..][j - 1];
      1 + n
  }

  /** The loop of `parse_dir` over `files`: it completes exactly when every
      file parses, and otherwise ends with the error of the first file that
      does not. */
  function ParseFiles(parser: Parser, files: seq<PurePath>, saveMarkdown: bool, saveJson: bool, predict: Predictor): (r: DirRun)
    ensures r.outcome.Success? <==> ParsedPrefix(parser, files, predict) == |files|
    ensures r.outcome.Failure? ==>
      r.outcome.error == predict(parser.pipeline, Render(files[ParsedPrefix(parser, files, predict)])).error
    ensures !saveMarkdown && !saveJson ==> r.saves == []
    decreases |files|
  {
    if |files| == 0 then DirRun(Success([]), [])
    else
      match ParseInput(parser, Render(files[0]), Some(saveMarkdown), Some(saveJson), predict)
      case Failure(e) => DirRun(Failure(e), [])
      case Success(parsed) =>
        var rest := ParseFiles(parser, files[1..], saveMarkdown, saveJson, predict);
        var n := ParsedPrefix(parser, files[1..], predict);
        assert rest.outcome.Failure? ==> n < |files[1..]| && files[1..][n] == files[1 + n];
        var outcome :=
          match rest.outcome
          case Success(entries) => Success([DirEntry(Render(files[0]), parsed.results)] + entries)
          case Failure(e) => Failure(e);
        DirRun(outcome, parsed.saves + rest.saves)
  }

  /** A completed loop has one entry per file, in file order, keyed by
      `str(f)` and holding exactly what the engine returned for it. */
  lemma {:induction false} ParseFilesEntries(parser: Parser, files: seq<PurePath>, saveMarkdown: bool, saveJson: bool, predict: Predictor)
    ensures var r := ParseFiles(parser, files, saveMarkdown, saveJson, predict);
      r.outcome.Success? ==> |r.outcome.value| == |files| && forall i :: 0 <= i < |files| ==>
        r.outcome.value[i].key == Render(files[i]) &&
        predict(parser.pipeline, Render(files[i])) == Success(r.outcome.value[i].results)
    decreases |files|
  {
    var r := ParseFiles(parser, files, saveMarkdown, saveJson, predict);
    if |files| > 0 && r.outcome.Success? {
      ParseFilesEntries(parser, files[1..], saveMarkdown, saveJson, predict);
      var rest := ParseFiles(parser, files[1..], saveMarkdown, saveJson, predict).outcome.value;
      assert r.outcome.value == [DirEntry(Render(files[0]), predict(parser.pipeline, Render(files[0])).value)] + rest;
      forall i | 1 <= i < |files|
        ensures r.outcome.value[i].key == Render(files[i])
        ensures predict(parser.pipeline, Render(files[i])) == Success(r.outcome.value[i].results)
      {
        assert files[i] == files[1..][i - 1];
        assert r.outcome.value[i] == rest[i - 1];
      }
    }
  }

  /** Every save the loop made belongs to a file parsed before the loop
      ended and to one of that file's results: nothing is saved for the file
      that failed or for any file after it. */
  lemma {:induction false} ParseFilesSavesSound(parser: Parser, files: seq<PurePath>, saveMarkdown: bool, saveJson: bool, predict: Predictor)
    ensures var r := ParseFiles(parser, files, saveMarkdown, saveJson, predict);
      forall a :: a in r.saves ==> exists j ::
        && 0 <= j < ParsedPrefix(parser, files, predict)
        && a.input == Render(files[j])
        && a.index < |predict(parser.pipeline, Render(files[j])).value|
        && a.savePath == Render(parser.config.outputDir)
    decreases |files|
  {
    var r := ParseFiles(parser, files, saveMarkdown, saveJson, predict);
    if |files| > 0 && predict(parser.pipeline, Render(files[0])).Success? {
      ParseFilesSavesSound(parser, files[1..], saveMarkdown, saveJson, predict);
      var parsed := ParseInput(parser, Render(files[0]), Some(saveMarkdown), Some(saveJson), predict).value;
      var rest := ParseFiles(parser, files[1..], saveMarkdown, saveJson, predict);
      assert r.saves == parsed.saves + rest.saves;
      forall a | a in r.saves
        ensures exists j ::
          && 0 <= j < ParsedPrefix(parser, files, predict)
          && a.input == Render(files[j])
          && a.index < |predict(parser.pipeline, Render(files[j])).value|
          && a.savePath == Render(parser.config.outputDir)
      {
        if a in parsed.saves {
          assert a.input == Render(files[0]);
        } else {
          var j :| 0 <= j < ParsedPrefix(parser, files[1..], predict)
            && a.input == Render(files[1..][j])
            && a.index < |predict(parser.pipeline, Render(files[1..][j])).value|
            && a.savePath == Render(parser.config.outputDir);
          assert files[1..][j] == files[j + 1];
        }
      }
    }
  }

  /** Every file parsed before the loop ended saved each of its results in
      each requested format, even when a later file then failed. */
  lemma {:induction false} ParseFilesSavesComplete(parser: Parser, files: seq<PurePath>, saveMarkdown: bool, saveJson: bool, predict: Predictor)
    ensures var r := ParseFiles(parser, files, saveMarkdown, saveJson, predict);
      forall j, k :: 0 <= j < ParsedPrefix(parser, files, predict) && 0 <= k < |predict(parser.pipeline, Render(files[j])).value| ==>
        (saveMarkdown ==> SaveMarkdown(Render(files[j]), k, Render(parser.config.outputDir)) in r.saves) &&
        (saveJson ==> SaveJson(Render(files[j]), k, Render(parser.config.outputDir)) in r.saves)
    decreases |files|
  {
    var r := ParseFiles(parser, files, saveMarkdown, saveJson, predict);
    var dir := Render(parser.config.outputDir);
    if |files| > 0 && predict(parser.pipeline, Render(files[0])).Success? {
      ParseFilesSavesComplete(parser, files[1..], saveMarkdown, saveJson, predict);
      var parsed := ParseInput(parser, Render(files[0]), Some(saveMarkdown), Some(saveJson), predict).value;
      var rest := ParseFiles(parser, files[1..], saveMarkdown, saveJson, predict);
      assert r.saves == parsed.saves + rest.saves;
      forall j, k | 0 <= j < ParsedPrefix(parser, files, predict) && 0 <= k < |predict(parser.pipeline, Render(files[j])).value|
        ensures saveMarkdown ==> SaveMarkdown(Render(files[j]), k, dir) in r.saves
        ensures saveJson ==> SaveJson(Render(files[j]), k, dir) in r.saves
      {
        if j > 0 {
          assert files[j] == files[1..][j - 1];
        }
      }
    }
  }

  /** `VLMOcrParser.parse_dir`; `patterns` and the flags are `None` when the
      caller leaves their defaults. On completion the dict holds one item per
      file found, de-duplicated across patterns, in sorted path order and
      under distinct keys; the run fails exactly when some file does not
      parse. Every file is parsed with the run's own flags. */
  function ParseDir(parser: Parser, inputDir: string, patterns: Option<seq<string>>, saveMarkdown: Option<bool>, saveJson: Option<bool>, rglob: Globber, predict: Predictor): (r: DirRun)
    ensures var files := CollectFiles(Parse(inputDir), patterns.GetOr(DefaultPatterns), rglob);
      r.outcome.Success? <==> forall i :: 0 <= i < |files| ==> predict(parser.pipeline, Render(files[i])).Success?
    ensures var files := CollectFiles(Parse(inputDir), patterns.GetOr(DefaultPatterns), rglob);
      r.outcome.Success? ==> |r.outcome.value| == |files| && forall i :: 0 <= i < |files| ==>
        r.outcome.value[i].key == Render(files[i]) &&
        predict(parser.pipeline, Render(files[i])) == Success(r.outcome.value[i].results)
    ensures r.outcome.Success? ==> forall i, j :: 0 <= i < j < |r.outcome.value| ==>
      r.outcome.value[i].key != r.outcome.value[j].key
    ensures r == ParseFiles(parser, CollectFiles(Parse(inputDir), patterns.GetOr(DefaultPatterns), rglob),
      saveMarkdown.GetOr(DefaultSaveMarkdown), saveJson.GetOr(DefaultSaveJson), predict)
  {
    var files := CollectFiles(Parse(inputDir), patterns.GetOr(DefaultPatterns), rglob);
    var md, js := saveMarkdown.GetOr(DefaultSaveMarkdown), saveJson.GetOr(DefaultSaveJson);
    ParseFilesEntries(parser, files, md, js, predict);
    RenderedDistinct(files);
    ParseFiles(parser, files, md, js, predict)
  }
}
