/** The batch OCR service (ocr_service/ocr_vl/service.py): Markdown extraction
    from one engine result, the item list of a request, the per-item loop with
    error isolation, and the merged document and overall status. */
module Service {
  import opened Wrappers
  import opened Text
  import opened Paths
  import opened Paddle
  import opened IoUtils
  import opened OcrModel
  import Config

  // ---------------------------------------------------------------------
  // Extraction of Markdown from one engine result
  // ---------------------------------------------------------------------

  /** The exception `v.get(...)` raises on a value that is not a dict. */
  function NoGet(v: Value): PyError {
    PyError(AttributeError, "'" + TypeName(v) + "' object has no attribute 'get'")
  }

  /** Level one: `res.markdown["markdown_texts"]` when `res.markdown` is a
      non-empty dict (a dict holding the key is never empty). */
  function MarkdownAttrText(res: EngineOutput): Option<Value> {
    match res.markdown
    case Some(Dict(m)) => Get(m, "markdown_texts")
    case _ => None
  }

  /** Level two: `res.json.get("markdown", {}).get("markdown_texts")`. */
  function JsonMarkdownText(j: map<string, Value>): Result<Option<Value>, PyError> {
    var inner := if "markdown" in j then j["markdown"] else Dict(map[]);
    match inner
    case Dict(m) => Success(Get(m, "markdown_texts"))
    case _ => Failure(NoGet(inner))
  }

  /** `for block in v`, as far as the fallback gets: a list yields its items;
      a non-empty string or dict yields strings, the first of which fails on
      `.get`; anything else is not iterable. */
  function Blocks(v: Value): Result<seq<Value>, PyError> {
    match v
    case List(items) => Success(items)
    case Str(s) => if s == "" then Success([]) else Failure(NoGet(Str(s[..1])))
    case Dict(m) => if |m| == 0 then Success([]) else Failure(NoGet(Str("")))
    case Scalar(t, _) => Failure(PyError(TypeError, "'" + t + "' object is not iterable"))
  }

  /** The loop of the fallback: the truthy `block_content` of every block
      labelled "text", in block order. */
  function TextContents(blocks: seq<Value>): (r: Result<seq<Value>, PyError>)
    ensures r.Success? ==> forall k :: 0 <= k < |r.value| ==> Truthy(r.value[k])
    ensures r.Success? ==> |r.value| <= |blocks|
    decreases |blocks|
  {
    if |blocks| == 0 then Success([])
    else
      match blocks[0]
      case Dict(m) =>
        var rest :- TextContents(blocks[1..]);
        if Get(m, "block_label") == Some(Str("text")) then
          var content := if "block_content" in m then m["block_content"] else Str("");
          if Truthy(content) then Success([content] + rest) else Success(rest)
        else Success(rest)
      case other => Failure(NoGet(other))
  }

  /** The index of the first non-string among `vals`, or `|vals|`. */
  function FirstNonStr(vals: seq<Value>): (i: nat)
    ensures i <= |vals|
    ensures forall k :: 0 <= k < i ==> vals[k].Str?
    ensures i < |vals| ==> !vals[i].Str?
    decreases |vals|
  {
    if |vals| == 0 || !vals[0].Str? then 0 else 1 + FirstNonStr(vals[1..])
  }

  function Strings(vals: seq<Value>): (r: seq<string>)
    requires forall k :: 0 <= k < |vals| ==> vals[k].Str?
    ensures |r| == |vals|
    ensures forall k :: 0 <= k < |vals| ==> r[k] == vals[k].s
  {
    seq(|vals|, k requires 0 <= k < |vals| => vals[k].s)
  }

  /** `sep.join(vals)`, which raises `TypeError` at the first non-string. */
  function JoinValues(sep: string, vals: seq<Value>): (r: Result<string, PyError>)
    ensures r.Success? <==> forall k :: 0 <= k < |vals| ==> vals[k].Str?
    ensures r.Success? ==> r.value == Join(sep, Strings(vals))
    ensures r.Failure? ==> r.error.kind == TypeError
  {
    var i := FirstNonStr(vals);
    if i < |vals| then
      Failure(PyError(TypeError, "sequence item " + NatToString(i) + ": expected str instance, " + TypeName(vals[i]) + " found"))
    else Success(Join(sep, Strings(vals)))
  }

  /** Level three: the text blocks of `res.json["parsing_res_list"]`, joined
      by blank lines. */
  function FallbackText(j: map<string, Value>): Result<Option<Value>, PyError> {
    var list := if "parsing_res_list" in j then j["parsing_res_list"] else List([]);
    var blocks :- Blocks(list);
    var texts :- TextContents(blocks);
    var joined :- JoinValues("\n\n", texts);
    Success(Some(Str(joined)))
  }

  /** `_extract_markdown_from_result`: the first truthy of the three levels,
      or "" when none is. The result is the level's value itself, so it is
      truthy or it is "". */
  function ExtractMarkdown(res: EngineOutput): (r: Result<Value, PyError>)
    ensures r.Success? ==> Truthy(r.value) || r.value == Str("")
    ensures TruthyOpt(MarkdownAttrText(res)) ==> r == Success(MarkdownAttrText(res).value)
  {
    var level1 := MarkdownAttrText(res);
    var level2 :-
      if !TruthyOpt(level1) && res.json.Some? && res.json.value.Dict?
      then JsonMarkdownText(res.json.value.fields) else Success(level1);
    var level3 :-
      if !TruthyOpt(level2) && res.json.Some? && res.json.value.Dict?
      then FallbackText(res.json.value.fields) else Success(level2);
    Success(if TruthyOpt(level3) then level3.value else Str(""))
  }

  /** A string, or absent, or falsy (such as `None`): a text field that can
      never carry a non-string into the result. */
  predicate TextOrFalsy(o: Option<Value>) {
    o.None? || o.value.Str? || !Truthy(o.value)
  }

  /** Blocks the fallback loop can walk: every block is a dict, and a text
      block's non-empty content is a string. Other blocks may hold anything,
      since the loop never reads their content. */
  predicate WellFormedBlocks(blocks: seq<Value>) {
    forall k :: 0 <= k < |blocks| ==>
      blocks[k].Dict? && (IsTextBlock(blocks[k]) ==> blocks[k].fields["block_content"].Str?)
  }

  /** An engine result of the shape the extractor was written for. This is a
      sufficient condition: on some other shapes the source's own code raises
      or returns a non-string, and the model does the same. */
  predicate WellShaped(res: EngineOutput) {
    && (res.markdown.Some? && res.markdown.value.Dict? ==> TextOrFalsy(Get(res.markdown.value.fields, "markdown_texts")))
    && (res.json.Some? && res.json.value.Dict? ==>
         var j := res.json.value.fields;
         && ("markdown" in j ==> j["markdown"].Dict? && TextOrFalsy(Get(j["markdown"].fields, "markdown_texts")))
         && ("parsing_res_list" in j ==> j["parsing_res_list"].List? && WellFormedBlocks(j["parsing_res_list"].items)))
  }

  /** Whether a block is a text block with non-empty content. */
  predicate IsTextBlock(block: Value)
    requires block.Dict?
  {
    Get(block.fields, "block_label") == Some(Str("text"))
    && "block_content" in block.fields && Truthy(block.fields["block_content"])
  }

  /** Reference definition: the contents of the text blocks, in block order. */
  function BlockTexts(blocks: seq<Value>): (r: seq<string>)
    requires WellFormedBlocks(blocks)
    ensures forall k :: 0 <= k < |r| ==> r[k] != ""
    decreases |blocks|
  {
    if |blocks| == 0 then []
    else
      assert WellFormedBlocks(blocks[1..]) by {
        forall k | 0 <= k < |blocks| - 1 ensures blocks[1..][k] == blocks[k + 1] { }
      }
      (if IsTextBlock(blocks[0]) then [blocks[0].fields["block_content"].s] else []) + BlockTexts(blocks[1..])
  }

  /** On well-formed blocks the fallback loop keeps exactly the text blocks'
      contents, all of them strings. */
  lemma {:induction false} TextContentsOfWellFormed(blocks: seq<Value>)
    requires WellFormedBlocks(blocks)
    ensures TextContents(blocks).Success?
    ensures forall k :: 0 <= k < |TextContents(blocks).value| ==> TextContents(blocks).value[k].Str?
    ensures Strings(TextContents(blocks).value) == BlockTexts(blocks)
    decreases |blocks|
  {
    if |blocks| > 0 {
      assert WellFormedBlocks(blocks[1..]) by {
        forall k | 0 <= k < |blocks| - 1 ensures blocks[1..][k] == blocks[k + 1] { }
      }
      TextContentsOfWellFormed(blocks[1..]);
      var rest := TextContents(blocks[1..]).value;
      var r := TextContents(blocks).value;
      if IsTextBlock(blocks[0]) {
        assert r == [blocks[0].fields["block_content"]] + rest;
      } else {
        assert r == rest;
      }
    }
  }

  /** Level one wins whenever it is truthy: `res.json` is then never looked
      at, whatever it holds. */
  lemma ExtractPrefersMarkdownAttr(res: EngineOutput, otherJson: Option<Value>)
    requires TruthyOpt(MarkdownAttrText(res))
    ensures ExtractMarkdown(res) == ExtractMarkdown(res.(json := otherJson)) == Success(MarkdownAttrText(res).value)
  {
  }

  /** Level two is used when level one is falsy and it is truthy. */
  lemma ExtractUsesJsonMarkdown(res: EngineOutput, v: Value)
    requires !TruthyOpt(MarkdownAttrText(res))
    requires res.json.Some? && res.json.value.Dict?
    requires JsonMarkdownText(res.json.value.fields) == Success(Some(v)) && Truthy(v)
    ensures ExtractMarkdown(res) == Success(v)
  {
  }

  /** When neither payload level has text, the result is the blank-line join
      of the text blocks' contents, in block order, other blocks skipped; a
      missing `parsing_res_list` counts as an empty one and gives "". */
  lemma ExtractFallsBackToTextBlocks(res: EngineOutput, blocks: seq<Value>)
    requires !TruthyOpt(MarkdownAttrText(res))
    requires res.json.Some? && res.json.value.Dict?
    requires JsonMarkdownText(res.json.value.fields).Success? && !TruthyOpt(JsonMarkdownText(res.json.value.fields).value)
    requires || Get(res.json.value.fields, "parsing_res_list") == Some(List(blocks))
             || (Get(res.json.value.fields, "parsing_res_list") == None && blocks == [])
    requires WellFormedBlocks(blocks)
    ensures ExtractMarkdown(res) == Success(Str(Join("\n\n", BlockTexts(blocks))))
  {
    TextContentsOfWellFormed(blocks);
  }

  /** Without a dict payload and without level-one text, the result is "". */
  lemma ExtractNothing(res: EngineOutput)
    requires !TruthyOpt(MarkdownAttrText(res))
    requires res.json.None? || !res.json.value.Dict?
    ensures ExtractMarkdown(res) == Success(Str(""))
  {
  }

  /** On results of the engine's shape extraction never raises and always
      yields a string. */
  lemma ExtractNeverFails(res: EngineOutput)
    requires WellShaped(res)
    ensures ExtractMarkdown(res).Success? && ExtractMarkdown(res).value.Str?
  {
    if res.json.Some? && res.json.value.Dict? {
      var j := res.json.value.fields;
      if "parsing_res_list" in j {
        TextContentsOfWellFormed(j["parsing_res_list"].items);
      }
    }
  }

  /** The Markdown of one well-shaped engine result. */
  function ExtractedText(res: EngineOutput): string
    requires WellShaped(res)
  {
    ExtractNeverFails(res);
    ExtractMarkdown(res).value.s
  }

  // ---------------------------------------------------------------------
  // The item list of a request
  // ---------------------------------------------------------------------

  /** `BatchOCRRequest` */
  datatype BatchOcrRequest = BatchOcrRequest(batchId: Option<string>, dirPath: Option<string>, images: seq<ImageInput>)

  /** `build_image_list_from_request`: the directory's images (only when
      `dir_path` is truthy) followed by the explicit images, unchanged and in
      request order. Only the directory scan can raise. */
  function BuildImageList(req: BatchOcrRequest, fs: FileSystem): (r: Result<seq<ImageInput>, PyError>)
    ensures !TruthyText(req.dirPath) ==> r == Success(req.images)
    ensures TruthyText(req.dirPath) ==> (r.Failure? <==> ListImagesInDir(req.dirPath.value, fs).Failure?)
    ensures r.Failure? ==> TruthyText(req.dirPath) && r.error == ListImagesInDir(req.dirPath.value, fs).error
    ensures r.Success? && TruthyText(req.dirPath) ==>
      r.value == ListImagesInDir(req.dirPath.value, fs).value + req.images
    ensures r.Success? ==>
      |r.value| >= |req.images| && r.value[|r.value| - |req.images|..] == req.images
  {
    if TruthyText(req.dirPath) then
      var dirImages :- ListImagesInDir(req.dirPath.value, fs);
      assert (dirImages + req.images)[|dirImages|..] == req.images;
      Success(dirImages + req.images)
    else Success(req.images)
  }

  // ---------------------------------------------------------------------
  // One item
  // ---------------------------------------------------------------------

  /** Everything outside the service that a batch observes. */
  datatype Environment = Environment(fs: FileSystem, net: Network, cuda: CudaEnv, construct: Constructor, predict: Predictor)

  /** `ImageResult`; exactly one of `markdown` and `error` is set. */
  datatype ImageResult = ImageResult(id: string, path: string, markdown: Option<string>, error: Option<string>)

  /** `img.id or Path(img.path).stem` */
  function ItemId(img: ImageInput): string {
    if TruthyText(img.id) then img.id.value else PathStem(img.path)
  }

  /** The truthy extractions of `outputs`, in order; the first extraction
      that raises ends the loop. */
  function MarkdownParts(outputs: seq<EngineOutput>): (r: Result<seq<Value>, PyError>)
    ensures r.Success? ==> forall k :: 0 <= k < |r.value| ==> Truthy(r.value[k])
    ensures r.Success? ==> |r.value| <= |outputs|
    decreases |outputs|
  {
    if |outputs| == 0 then Success([])
    else
      var md :- ExtractMarkdown(outputs[0]);
      var rest :- MarkdownParts(outputs[1..]);
      Success((if Truthy(md) then [md] else []) + rest)
  }

  /** `"\n\n".join(md_parts) if md_parts else ""` */
  function ItemMarkdown(outputs: seq<EngineOutput>): Result<string, PyError> {
    var parts :- MarkdownParts(outputs);
    if |parts| > 0 then JoinValues("\n\n", parts) else Success("")
  }

  /** Reference definition: the non-empty Markdown of each result, in order. */
  function NonEmptyTexts(outputs: seq<EngineOutput>): (r: seq<string>)
    requires forall k :: 0 <= k < |outputs| ==> WellShaped(outputs[k])
    ensures forall k :: 0 <= k < |r| ==> r[k] != ""
    decreases |outputs|
  {
    if |outputs| == 0 then []
    else
      var t := ExtractedText(outputs[0]);
      (if t != "" then [t] else []) + NonEmptyTexts(outputs[1..])
  }

  lemma {:induction false} MarkdownPartsOfWellShaped(outputs: seq<EngineOutput>)
    requires forall k :: 0 <= k < |outputs| ==> WellShaped(outputs[k])
    ensures MarkdownParts(outputs).Success?
    ensures forall k :: 0 <= k < |MarkdownParts(outputs).value| ==> MarkdownParts(outputs).value[k].Str?
    ensures Strings(MarkdownParts(outputs).value) == NonEmptyTexts(outputs)
    decreases |outputs|
  {
    if |outputs| > 0 {
      ExtractNeverFails(outputs[0]);
      MarkdownPartsOfWellShaped(outputs[1..]);
      var md := ExtractMarkdown(outputs[0]).value;
      var rest := MarkdownParts(outputs[1..]).value;
      assert MarkdownParts(outputs).value == (if Truthy(md) then [md] else []) + rest;
    }
  }

  /** On results of the engine's shape an item's Markdown is the blank-line
      join of the non-empty extractions, "" when there are none. */
  lemma ItemMarkdownOfWellShaped(outputs: seq<EngineOutput>)
    requires forall k :: 0 <= k < |outputs| ==> WellShaped(outputs[k])
    ensures ItemMarkdown(outputs) == Success(Join("\n\n", NonEmptyTexts(outputs)))
  {
    MarkdownPartsOfWellShaped(outputs);
  }

  /** The `try` body for one item: materialise the path, check the file,
      predict, extract. */
  function ProcessItem(img: ImageInput, env: Environment, pl: OcrPipeline): Result<string, PyError> {
    var local :- EnsureLocalPath(img.path, env.net);
    var localFile := Parse(local);
    // A downloaded file was just created by `mkstemp`, so `is_file` holds.
    if !IsHttpUrl(img.path) && localFile in env.fs.statErrors then Failure(env.fs.statErrors[localFile])
    else if !IsHttpUrl(img.path) && localFile !in env.fs.files then
      Failure(PyError(FileNotFoundError, "Image not found: " + local))
    else
      var outputs :- env.predict(pl, Render(localFile));
      ItemMarkdown(outputs)
  }

  /** One iteration of the loop of `run_batch_ocr_sync`: the item's id and
      original path, with the Markdown on success or `str(e)` on failure. */
  function RunItem(img: ImageInput, env: Environment, pl: OcrPipeline): (r: ImageResult)
    ensures r.id == ItemId(img) && r.path == img.path
    ensures r.markdown.Some? <==> r.error.None?
    ensures r.error.None? <==> ProcessItem(img, env, pl).Success?
    ensures r.markdown.Some? ==> r.markdown.value == ProcessItem(img, env, pl).value
    ensures r.error.Some? ==> r.error.value == ProcessItem(img, env, pl).error.message
  {
    match ProcessItem(img, env, pl)
    case Success(md) => ImageResult(ItemId(img), img.path, Some(md), None)
    case Failure(e) => ImageResult(ItemId(img), img.path, None, Some(e.message))
  }

  /** A local path whose file is missing fails that item with a non-empty
      error, without consulting the network or the engine. */
  lemma MissingLocalFileFails(img: ImageInput, env: Environment, pl: OcrPipeline)
    requires !IsHttpUrl(img.path) && Parse(img.path) !in env.fs.statErrors && Parse(img.path) !in env.fs.files
    ensures RunItem(img, env, pl) == ImageResult(ItemId(img), img.path, None, Some("Image not found: " + img.path))
    ensures HasError(RunItem(img, env, pl))
  {
  }

  /** A local path whose `is_file()` raises (a `PermissionError`, say) fails
      that item with that exception's message, not "Image not found". */
  lemma UnstatableLocalFileFails(img: ImageInput, env: Environment, pl: OcrPipeline)
    requires !IsHttpUrl(img.path) && Parse(img.path) in env.fs.statErrors
    ensures RunItem(img, env, pl) ==
      ImageResult(ItemId(img), img.path, None, Some(env.fs.statErrors[Parse(img.path)].message))
  {
  }

  /** An existing local file whose engine results have the engine's shape
      succeeds with the joined extractions. */
  lemma LocalItemSucceeds(img: ImageInput, env: Environment, pl: OcrPipeline, outputs: seq<EngineOutput>)
    requires !IsHttpUrl(img.path) && Parse(img.path) !in env.fs.statErrors && Parse(img.path) in env.fs.files
    requires env.predict(pl, Render(Parse(img.path))) == Success(outputs)
    requires forall k :: 0 <= k < |outputs| ==> WellShaped(outputs[k])
    ensures RunItem(img, env, pl) == ImageResult(ItemId(img), img.path, Some(Join("\n\n", NonEmptyTexts(outputs))), None)
  {
    ItemMarkdownOfWellShaped(outputs);
  }

  // ---------------------------------------------------------------------
  // Aggregation
  // ---------------------------------------------------------------------

  /** `ir.error` is truthy: an empty error string does not count. */
  predicate HasError(r: ImageResult) {
    TruthyText(r.error)
  }

  /** `any(ir.error for ir in results)` */
  function AnyError(rs: seq<ImageResult>): bool
    decreases |rs|
  {
    |rs| > 0 && (HasError(rs[0]) || AnyError(rs[1..]))
  }

  /** `all(ir.error for ir in results)`, true of the empty list. */
  function AllErrors(rs: seq<ImageResult>): bool
    decreases |rs|
  {
    |rs| == 0 || (HasError(rs[0]) && AllErrors(rs[1..]))
  }

  lemma {:induction false} AnyErrorIff(rs: seq<ImageResult>)
    ensures AnyError(rs) <==> exists i :: 0 <= i < |rs| && HasError(rs[i])
    decreases |rs|
  {
    if |rs| > 0 {
      AnyErrorIff(rs[1..]);
      assert forall i :: 1 <= i < |rs| ==> rs[i] == rs[1..][i - 1];
    }
  }

  lemma {:induction false} AllErrorsIff(rs: seq<ImageResult>)
    ensures AllErrors(rs) <==> forall i :: 0 <= i < |rs| ==> HasError(rs[i])
    decreases |rs|
  {
    if |rs| > 0 {
      AllErrorsIff(rs[1..]);
      assert forall i :: 1 <= i < |rs| ==> rs[i] == rs[1..][i - 1];
    }
  }

  /** The overall status of a batch. */
  datatype Status = Succeeded | PartiallySucceeded | Failed {
    /** The string the response carries. */
    function Text(): string {
      match this
      case Succeeded => "success"
      case PartiallySucceeded => "partial_success"
      case Failed => "failed"
    }
  }

  /** The status computation: "failed" when every item has an error (so also
      for no items at all), "partial_success" when some but not all do, and
      "success" otherwise. */
  function BatchStatus(rs: seq<ImageResult>): (s: Status)
    ensures s == Failed <==> forall i :: 0 <= i < |rs| ==> HasError(rs[i])
    ensures s == PartiallySucceeded <==>
      (exists i :: 0 <= i < |rs| && HasError(rs[i])) && (exists i :: 0 <= i < |rs| && !HasError(rs[i]))
    ensures s == Succeeded <==> |rs| > 0 && forall i :: 0 <= i < |rs| ==> !HasError(rs[i])
  {
    AnyErrorIff(rs);
    AllErrorsIff(rs);
    var status := if AnyError(rs) then PartiallySucceeded else Succeeded;
    if AllErrors(rs) then Failed else status
  }

  /** The section an item with truthy Markdown contributes. */
  function Section(r: ImageResult): string
    requires TruthyText(r.markdown)
  {
    "## " + r.id + "\n\n" + r.markdown.value
  }

  /** `merged_parts`: one section per item with truthy Markdown. */
  function Sections(rs: seq<ImageResult>): (r: seq<string>)
    ensures |r| <= |rs|
    ensures forall k :: 0 <= k < |r| ==> StartsWith(r[k], "## ")
    decreases |rs|
  {
    if |rs| == 0 then []
    else (if TruthyText(rs[0].markdown) then [Section(rs[0])] else []) + Sections(rs[1..])
  }

  /** Sections follow item order: those of a concatenation are the sections
      of the first part followed by those of the second. */
  lemma {:induction false} SectionsAppend(a: seq<ImageResult>, b: seq<ImageResult>)
    ensures Sections(a + b) == Sections(a) + Sections(b)
    decreases |a|
  {
    if |a| == 0 {
      assert a + b == b;
    } else {
      assert (a + b)[1..] == a[1..] + b;
      SectionsAppend(a[1..], b);
    }
  }

  /** No sections exactly when no item has truthy Markdown. */
  lemma {:induction false} SectionsEmptyIff(rs: seq<ImageResult>)
    ensures Sections(rs) == [] <==> forall i :: 0 <= i < |rs| ==> !TruthyText(rs[i].markdown)
    decreases |rs|
  {
    if |rs| > 0 {
      SectionsEmptyIff(rs[1..]);
      assert forall i :: 1 <= i < |rs| ==> rs[i] == rs[1..][i - 1];
    }
  }

  lemma JoinOfNonEmptyFirst(sep: string, parts: seq<string>)
    requires |parts| > 0 && parts[0] != ""
    ensures Join(sep, parts) != ""
  {
    if |parts| > 1 {
      assert Join(sep, parts)[0] == parts[0][0];
    }
  }

  /** `MERGE_SEPARATOR.join(merged_parts)`; empty exactly when no item has
      truthy Markdown. */
  function MergeMarkdown(rs: seq<ImageResult>): (m: string)
    ensures m == "" <==> forall i :: 0 <= i < |rs| ==> !TruthyText(rs[i].markdown)
  {
    SectionsEmptyIff(rs);
    var parts := Sections(rs);
    assert |parts| > 0 ==> Join(Config.MERGE_SEPARATOR, parts) != "" by {
      if |parts| > 0 {
        JoinOfNonEmptyFirst(Config.MERGE_SEPARATOR, parts);
      }
    }
    Join(Config.MERGE_SEPARATOR, parts)
  }

  /** `BatchOCRResponse` */
  datatype BatchOcrResponse = BatchOcrResponse(batchId: Option<string>, imageCount: nat, status: Status, images: seq<ImageResult>, mergedMarkdown: string)

  /** The per-item loop: one result per item, in order, each failure
      confined to its own item. */
  method RunItems(images: seq<ImageInput>, env: Environment, pl: OcrPipeline) returns (results: seq<ImageResult>)
    ensures |results| == |images|
    ensures forall k {:trigger RunItem(images[k], env, pl)} :: 0 <= k < |images| ==> results[k] == RunItem(images[k], env, pl)
  {
    results := [];
    var i := 0;
    while i < |images|
      invariant 0 <= i <= |images|
      invariant |results| == i
      invariant forall k :: 0 <= k < i ==> results[k] == RunItem(images[k], env, pl)
    {
      var item := RunItem(images[i], env, pl);
      assert forall k :: 0 <= k < i ==> (results + [item])[k] == results[k];
      results := results + [item];
      i := i + 1;
    }
  }

  /** The merge loop: the sections of the items with truthy Markdown, in
      item order. */
  method CollectSections(results: seq<ImageResult>) returns (mergedParts: seq<string>)
    ensures mergedParts == Sections(results)
  {
    mergedParts := [];
    var j := 0;
    while j < |results|
      invariant 0 <= j <= |results|
      invariant mergedParts == Sections(results[..j])
    {
      SectionsAppend(results[..j], [results[j]]);
      assert results[..j + 1] == results[..j] + [results[j]];
      if TruthyText(results[j].markdown) {
        mergedParts := mergedParts + [Section(results[j])];
      }
      j := j + 1;
    }
    assert results[..j] == results;
  }

  /** `run_batch_ocr_sync`: obtain the engine (an initialisation failure
      escapes), run every item in order with its failure confined to its own
      result, then merge and classify. */
  method RunBatchOcrSync(cache: Cache, env: Environment, images: seq<ImageInput>, batchId: Option<string>) returns (nextCache: Cache, r: Result<BatchOcrResponse, PyError>)
    ensures nextCache == InitPipeline(cache, env.cuda, env.construct).cache
    ensures r.Failure? <==> InitPipeline(cache, env.cuda, env.construct).pipeline.Failure?
    ensures r.Failure? ==> r.error == InitPipeline(cache, env.cuda, env.construct).pipeline.error
    ensures r.Success? ==> r.value.batchId == batchId
    ensures r.Success? ==> r.value.imageCount == |r.value.images| == |images|
    ensures r.Success? ==> forall i :: 0 <= i < |images| ==>
      r.value.images[i] == RunItem(images[i], env, InitPipeline(cache, env.cuda, env.construct).pipeline.value)
    ensures r.Success? ==> r.value.status == BatchStatus(r.value.images)
    ensures r.Success? ==> r.value.mergedMarkdown == MergeMarkdown(r.value.images)
  {
    var init := InitPipeline(cache, env.cuda, env.construct);
    nextCache := init.cache;
    if init.pipeline.Failure? {
      return nextCache, Failure(init.pipeline.error);
    }
    var results := RunItems(images, env, init.pipeline.value);
    var mergedParts := CollectSections(results);
    var status := BatchStatus(results);
    r := Success(BatchOcrResponse(batchId, |results|, status, results, Join(Config.MERGE_SEPARATOR, mergedParts)));
  }

  /** An empty batch is classified "failed" with an empty document. */
  lemma EmptyBatchFails()
    ensures BatchStatus([]) == Failed && MergeMarkdown([]) == ""
  {
  }

  /** Three items, the middle one failed and the others with Markdown: the
      batch is a partial success and the document holds the first and third
      sections only, in that order. */
  lemma MiddleFailureScenario(rs: seq<ImageResult>)
    requires |rs| == 3
    requires HasError(rs[1]) && rs[1].markdown.None?
    requires !HasError(rs[0]) && TruthyText(rs[0].markdown)
    requires !HasError(rs[2]) && TruthyText(rs[2].markdown)
    ensures BatchStatus(rs) == PartiallySucceeded
    ensures MergeMarkdown(rs) == Section(rs[0]) + Config.MERGE_SEPARATOR + Section(rs[2])
  {
    assert rs == [rs[0]] + [rs[1]] + [rs[2]];
    SectionsAppend([rs[0]], [rs[1]] + [rs[2]]);
    SectionsAppend([rs[1]], [rs[2]]);
    var parts := [Section(rs[0]), Section(rs[2])];
    assert Sections(rs) == parts;
    assert parts[1..] == [Section(rs[2])];
    assert Join(Config.MERGE_SEPARATOR, parts[1..]) == Section(rs[2]);
  }
}
