# Batch OCR orchestration, modelled in Dafny

This project models the orchestration core of `vlm-ocr-parser`. That core is a small Python service which turns a batch of image references into Markdown with the PaddleOCR-VL engine. It models:

- **The batch service** (`ocr_service/ocr_vl/service.py`):
  - It builds the item list: directory images first, then the explicit images.
  - It initialises the engine once per process.
  - It runs every item with its failure confined to that item.
  - It extracts Markdown from each engine result through a three-level fallback.
  - It merges the successful items into one document under `## id` headings.
  - It classifies the batch as `success`, `partial_success` or `failed`.
- **The reference helpers** (`ocr_service/ocr_vl/io_utils.py`):
  - URL detection.
  - The directory scan: regular files whose lower-cased suffix is an image extension, in sorted path order.
  - Local-path passthrough.
  - The suffix rule for downloaded files.
- **The engine singleton** (`ocr_service/ocr_vl/model.py`): a cache that is built lazily and reused by every later call.
- **The stand-alone parser** (`vlm_ocr_parser/pipeline.py`):
  - Device choice with a GPU probe that falls back to the CPU.
  - Engine construction with a single CPU retry on "Unsupported GPU architecture".
  - `parse`, with its save flags.
  - `parse_dir`, over a sorted, duplicate-free file list.
  - `create_default_parser`.

The engine, the filesystem and the network are oracles:

- Function-typed parameters stand for the engine's constructor and its `predict`, for `rglob`, for the output directory's `mkdir`, and for the HTTP fetch, the temporary-file creation and write, and the temporary-file name.
- A `FileSystem` value holds each directory's listing, the set of regular files, the paths whose `stat` raises, and the directories whose listing raises.

A raised exception is a `Failure` of a `Result`, carrying the Python exception class and its message. A caught exception becomes data in the item's result.

Engine results are modelled as a small datatype of Python values: strings, lists, dicts, and other scalars with their type name and truthiness. Because of this, the extractor's behaviour on unexpected shapes is modelled too. That includes the `AttributeError` or `TypeError` the source would raise.

Python semantics are written out wherever the code relies on them:

- Truthiness: `""` is absent, and an item whose error is `""` does not count as failed.
- `all([])` is true.
- `str.join` raises `TypeError` on a non-string.
- `in` on strings.
- pathlib's `name`, `stem`, `suffix` and `str`.
- `sorted` and `sorted(set(...))`, by insertion sort and de-duplication under a proved strict total order on paths.

Modules, one per source concern:

| file | module | concern |
|---|---|---|
| wrappers.dfy | `Wrappers` | `Option`, `Result` (with `:-`), `Outcome` |
| text.dfy | `Text` | prefix, substring, `str.join`, ASCII lower-casing, splitting on `/` |
| ordering.dfy | `Ordering` | lexicographic order, sortedness, `sorted` and `sorted(set(...))` |
| paths.dfy | `Paths` | `PurePosixPath`: parsing, `str`, `name`/`stem`/`suffix`, ordering |
| config.dfy | `Config` | `IMAGE_EXTS`, `TMP_PREFIX`, `MERGE_SEPARATOR` |
| paddle.dfy | `Paddle` | Python exceptions and values, engine results, engine oracles |
| io_utils.dfy | `IoUtils` | `is_http_url`, `list_images_in_dir`, `download_to_local`, `ensure_local_path` |
| ocr_model.dfy | `OcrModel` | `init_pipeline` |
| vlm_pipeline.dfy | `VlmPipeline` | `_choose_device`, `_create_pipeline`, `VLMOcrParser`, `parse`, `parse_dir`, `create_default_parser` |
| service.dfy | `Service` | `_extract_markdown_from_result`, `build_image_list_from_request`, `run_batch_ocr_sync` |

### Behaviours worth noting

- **An empty batch is `"failed"`.**
  - For an empty result list `any(...)` is false, so `"partial_success"` is never assigned.
  - `all(...)` is true of the empty list, so the status becomes `"failed"` (ocr_service/ocr_vl/service.py:121-125; `Service.EmptyBatchFails`).
  - Over HTTP this case cannot arise: the route answers an empty image list with status 400 before the batch runs (ocr_service/app.py:33-34).
- **A directory path that is not a directory** raises `FileNotFoundError` (ocr_service/ocr_vl/io_utils.py:21-22).
- **Extraction can raise.**
  - Some results not of the engine's shape make it raise. Examples are a non-dict block in `parsing_res_list`, a `json["markdown"]` that is not a dict, or a text block whose truthy content is not a string reaching `str.join`.
  - In the service, such an exception fails only that item.
  - The model raises in the same places. For the shapes the engine produces, it proves extraction never fails (`Service.ExtractNeverFails`).

## Model

| member | source | states |
|---|---|---|
| Service.ExtractMarkdown | ocr_service/ocr_vl/service.py:11-42 | the extracted value is truthy or exactly `""`; a truthy `markdown["markdown_texts"]` is returned as it is |
| Service.ExtractPrefersMarkdownAttr | ocr_service/ocr_vl/service.py:19-21 | a truthy `markdown["markdown_texts"]` of a dict `markdown` wins, whatever `json` holds |
| Service.ExtractUsesJsonMarkdown | ocr_service/ocr_vl/service.py:24-29 | when level one is falsy, a truthy `json["markdown"]["markdown_texts"]` is the result |
| Service.ExtractFallsBackToTextBlocks | ocr_service/ocr_vl/service.py:32-40 | when neither payload level has text, the result is the blank-line join of the non-empty contents of the blocks labelled "text", in block order; other blocks are skipped whatever they hold; a missing `parsing_res_list` gives `""` |
| Service.ExtractNothing | ocr_service/ocr_vl/service.py:19-42 | with no level-one text and no dict `json`, the result is `""` |
| Service.ExtractNeverFails | ocr_service/ocr_vl/service.py:11-42 | extraction raises nothing and yields a string when every block is a dict, every truthy text-block content and every truthy `markdown_texts` is a string, and the nested containers are dicts and lists |
| Service.TextContents | ocr_service/ocr_vl/service.py:33-39 | the fallback loop keeps only truthy contents, at most one per block |
| Service.TextContentsOfWellFormed | ocr_service/ocr_vl/service.py:33-40 | when every block is a dict and every truthy text-block content is a string, the loop keeps exactly the text blocks' contents, matching the reference `BlockTexts` |
| Service.JoinValues | ocr_service/ocr_vl/service.py:40 | `str.join` succeeds exactly when every part is a string, with the join of the parts; otherwise it raises `TypeError` |
| Service.BuildImageList | ocr_service/ocr_vl/service.py:45-59 | the directory's images only when `dir_path` is truthy, then `req.images` unchanged and in order; it fails exactly when that directory scan fails, with the scan's error |
| Service.MarkdownParts | ocr_service/ocr_vl/service.py:85-89 | the kept extractions are all truthy and no more than the engine results |
| Service.NonEmptyTexts | ocr_service/ocr_vl/service.py:85-89 | reference definition: the non-empty extracted texts, each non-empty |
| Service.MarkdownPartsOfWellShaped | ocr_service/ocr_vl/service.py:85-89 | on engine-shaped results the kept parts are strings equal to the reference `NonEmptyTexts` |
| Service.ItemMarkdownOfWellShaped | ocr_service/ocr_vl/service.py:85-91 | an item's Markdown is the `"\n\n"`-join of the non-empty extractions, `""` when there are none |
| Service.RunItem | ocr_service/ocr_vl/service.py:73-110 | the result keeps `id = img.id or stem(path)` and the original path; exactly one of Markdown and error is set; the error is the exception's message |
| Service.MissingLocalFileFails | ocr_service/ocr_vl/service.py:78-81 | a local path whose `stat` succeeds but which is no regular file fails with "Image not found: " and the path |
| Service.UnstatableLocalFileFails | ocr_service/ocr_vl/service.py:77-110 | a local path whose `is_file()` raises fails with that exception's message |
| Service.LocalItemSucceeds | ocr_service/ocr_vl/service.py:78-100 | an existing local file with engine-shaped results succeeds with the joined extractions |
| Service.AnyErrorIff | ocr_service/ocr_vl/service.py:122 | `any(ir.error ...)` holds exactly when some result has a truthy error |
| Service.AllErrorsIff | ocr_service/ocr_vl/service.py:124 | `all(ir.error ...)` holds exactly when every result has a truthy error |
| Service.BatchStatus | ocr_service/ocr_vl/service.py:121-125 | "failed" iff every result has an error (including none at all); "partial_success" iff some do and some do not; "success" iff there are results and none has one |
| Service.EmptyBatchFails | ocr_service/ocr_vl/service.py:121-125 | an empty batch is "failed", with an empty document |
| Service.Sections | ocr_service/ocr_vl/service.py:113-116 | at most one section per result, each starting with "## " |
| Service.SectionsAppend | ocr_service/ocr_vl/service.py:113-116 | sections follow item order: those of a concatenation are concatenated |
| Service.SectionsEmptyIff | ocr_service/ocr_vl/service.py:113-116 | there are no sections exactly when no result has truthy Markdown |
| Service.MergeMarkdown | ocr_service/ocr_vl/service.py:113-118 | the merged document is `""` exactly when no result has truthy Markdown |
| Service.MiddleFailureScenario | ocr_service/ocr_vl/service.py:113-125 | a middle failure between two successes gives "partial_success" and the first and third sections joined by the separator |
| Service.RunItems | ocr_service/ocr_vl/service.py:73-110 | one result per image, same length and order, each computed from its own image only |
| Service.CollectSections | ocr_service/ocr_vl/service.py:113-116 | the merge loop collects exactly the sections of the results with truthy Markdown |
| Service.RunBatchOcrSync | ocr_service/ocr_vl/service.py:62-133 | an engine initialisation failure escapes; otherwise `image_count` and the results match the images one for one, with the status and merged document of those results |
| IoUtils.IsHttpUrlSpec | ocr_service/ocr_vl/io_utils.py:12-13 | a reference is a URL exactly when it is "http://" or "https://" followed by anything |
| IoUtils.SchemeIsCaseSensitive | ocr_service/ocr_vl/io_utils.py:12-13 | every URL begins with exactly `http`, so any other spelling of the scheme, such as `HTTP://`, is a local path |
| IoUtils.Children | ocr_service/ocr_vl/io_utils.py:25 | `p.iterdir()` yields one path per directory entry, in listing order; each lies directly inside `p` and has the entry's name as its `name`, so distinct entries give distinct paths |
| IoUtils.ImageExtsAreLower | ocr_service/ocr_vl/config.py:5 | every configured image extension is its own lower-case form, so comparing a lower-cased suffix against them matches case-insensitively |
| IoUtils.KeepImageFiles | ocr_service/ocr_vl/io_utils.py:25-27 | a path is kept exactly when it is in the input and is a regular file with a lower-cased image suffix |
| IoUtils.KeepImageFilesCounts | ocr_service/ocr_vl/io_utils.py:25-27 | each image file is kept as often as it occurs, and nothing else is kept |
| IoUtils.KeepImageFilesSorted | ocr_service/ocr_vl/io_utils.py:25-28 | filtering a sorted listing keeps it sorted |
| IoUtils.ImageInputs | ocr_service/ocr_vl/io_utils.py:27 | one entry per file with id `stem` and path `str(f)`, whose path parses back to the file |
| IoUtils.SortedEntries | ocr_service/ocr_vl/io_utils.py:25 | `sorted(p.iterdir())` is sorted and a permutation of the directory's children |
| IoUtils.DirImages | ocr_service/ocr_vl/io_utils.py:24-28 | every entry's id is the stem of its path |
| IoUtils.DirImagesSound | ocr_service/ocr_vl/io_utils.py:25-27 | every listed entry is a child of the directory and an image file |
| IoUtils.DirImagesComplete | ocr_service/ocr_vl/io_utils.py:25-27 | every image file among the directory's children is listed |
| IoUtils.DirImagesSorted | ocr_service/ocr_vl/io_utils.py:25-28 | the listing follows sorted path order |
| IoUtils.DirImagesStrictlySorted | ocr_service/ocr_vl/io_utils.py:25-28 | when the directory's entry names are distinct, the listing is strictly increasing, so no file appears twice |
| IoUtils.FirstStatError | ocr_service/ocr_vl/io_utils.py:25-26 | the entries before it can all be asked `is_file()`, and the entry at it, if any, raises |
| IoUtils.ScanDir | ocr_service/ocr_vl/io_utils.py:24-28 | the scan succeeds exactly when no entry's `is_file()` raises, with the image listing; otherwise it raises one entry's error |
| IoUtils.ListImagesInDir | ocr_service/ocr_vl/io_utils.py:16-28 | a raising `is_dir()` propagates; a non-directory raises `FileNotFoundError` with the path; a failing listing or entry `is_file()` propagates; otherwise the entries are exactly the directory's image files, in sorted order (strictly when the names are distinct), with their stems as ids |
| IoUtils.DownloadSuffix | ocr_service/ocr_vl/io_utils.py:39 | the URL's suffix when it has one, otherwise ".png" |
| IoUtils.DownloadToLocal | ocr_service/ocr_vl/io_utils.py:31-46 | fails exactly when the fetch fails or, after a successful fetch, creating or writing the temporary file fails, with that step's error; otherwise a path in the temporary directory that starts with the prefix and ends with the suffix |
| IoUtils.EnsureLocalPath | ocr_service/ocr_vl/io_utils.py:49-57 | a non-URL is returned unchanged; a URL is downloaded |
| IoUtils.EnsureLocalPathOffline | ocr_service/ocr_vl/io_utils.py:55-57 | a local path never depends on the network |
| Paths.ParseRender | ocr_service/ocr_vl/io_utils.py:27 | `Path(str(p)) == p` for every path |
| Paths.RenderInjective | vlm_ocr_parser/pipeline.py:160-161 | distinct paths print distinctly |
| Paths.Suffix | ocr_service/ocr_vl/io_utils.py:26 | stem plus suffix is the name; the suffix is non-empty exactly when the name has a dot after its first character and does not end in one; a suffix is a dot followed by a dot-free remainder |
| Paths.PathLessIsStrictTotal | ocr_service/ocr_vl/io_utils.py:25 | path order is a strict total order |
| Paths.ChildOrder | ocr_service/ocr_vl/io_utils.py:25 | children of one directory are ordered as their names are |
| Text.Lower | ocr_service/ocr_vl/io_utils.py:26 | lower-casing keeps the length, leaves no upper-case letter, turns each upper-case letter into its lower-case partner and keeps every other character |
| Text.LowerIdempotent | ocr_service/ocr_vl/io_utils.py:26 | lower-casing twice is lower-casing once |
| Ordering.DistinctIffSingleCounts | vlm_ocr_parser/pipeline.py:156 | a sequence has no duplicates exactly when its multiset counts every element at most once |
| Ordering.SortedDistinctIsStrict | ocr_service/ocr_vl/io_utils.py:25 | an ordered sequence without duplicates is strictly ordered |
| Ordering.Sort | vlm_ocr_parser/pipeline.py:156 | the result is sorted and a permutation of the input |
| Ordering.Dedup | vlm_ocr_parser/pipeline.py:156 | a sorted input becomes strictly sorted with the same members |
| Ordering.SortUnique | vlm_ocr_parser/pipeline.py:156 | `sorted(set(xs))` is strictly sorted with exactly the members of `xs` |
| Ordering.StrictlySortedUnique | vlm_ocr_parser/pipeline.py:156 | two strictly sorted lists with the same members are equal |
| OcrModel.ServiceDevice | ocr_service/ocr_vl/model.py:20-23 | "gpu:0" exactly when CUDA is compiled in and sees a device, otherwise "cpu" |
| OcrModel.InitPipeline | ocr_service/ocr_vl/model.py:12-35 | a cached engine is returned with no construction; otherwise exactly one construction on the service device with both flags set; success is cached and failure leaves the cache empty |
| OcrModel.InitPipelineIdempotent | ocr_service/ocr_vl/model.py:17-18 | after a success, later calls return the same engine and construct nothing |
| OcrModel.InitPipelineRetriesAfterFailure | ocr_service/ocr_vl/model.py:27-35 | after a failed construction the next call constructs again |
| OcrModel.InitSeriesBuildsOnce | ocr_service/ocr_vl/model.py:12-35 | across any series of calls at most one builds, and every successful call returns the same engine |
| VlmPipeline.ChooseDevice | vlm_ocr_parser/pipeline.py:31-51 | "gpu" exactly when the GPU is preferred, CUDA is compiled in and the probe succeeds; otherwise "cpu" |
| VlmPipeline.ProbeFailureFallsBackToCpu | vlm_ocr_parser/pipeline.py:43-51 | a failing probe ends in "cpu" and does not propagate |
| VlmPipeline.CreatePipeline | vlm_ocr_parser/pipeline.py:75-100 | one or two constructions; the second happens exactly when the first raised `RuntimeError` naming an unsupported GPU architecture on a non-CPU device, and it is on the CPU; the outcome is the last construction's |
| VlmPipeline.UnsupportedGpuRecoversOnCpu | vlm_ocr_parser/pipeline.py:86-99 | an unsupported-GPU failure followed by a CPU success yields the CPU engine after exactly two attempts |
| VlmPipeline.OtherFailuresPropagate | vlm_ocr_parser/pipeline.py:86-100 | any other failure escapes unchanged after one attempt, with the device unchanged |
| VlmPipeline.NewParser | vlm_ocr_parser/pipeline.py:61-70 | a failing `mkdir` raises before any construction; otherwise the attempts are those of `_create_pipeline` on the chosen device, a parser exists exactly when that returns an engine and holds it with the config, and otherwise its error escapes |
| VlmPipeline.NewParserAttempts | vlm_ocr_parser/pipeline.py:61-100 | at most two constructions, all with the config's flags, the first on the chosen device; the parser keeps the device of the last |
| VlmPipeline.CreateDefaultParser | vlm_ocr_parser/pipeline.py:173-186 | every construction enables layout detection and block-content formatting, and the parser keeps the caller's preference and output directory |
| VlmPipeline.Saves | vlm_ocr_parser/pipeline.py:129-135 | each result of the input saves Markdown exactly when asked and JSON exactly when asked, into the output directory |
| VlmPipeline.ParseInput | vlm_ocr_parser/pipeline.py:105-138 | omitted flags take their defaults; the raw results are returned unchanged; no flag means no saving; every save names this input and one of its results; prediction errors escape |
| VlmPipeline.ParseDefaultsSaveMarkdownOnly | vlm_ocr_parser/pipeline.py:105-135 | with the default flags every result is saved as Markdown and nothing as JSON |
| VlmPipeline.Globbed | vlm_ocr_parser/pipeline.py:153-154 | a file is collected exactly when some pattern's search found it |
| VlmPipeline.CollectFiles | vlm_ocr_parser/pipeline.py:150-156 | the file list is strictly sorted and holds exactly the files some pattern found |
| VlmPipeline.RenderedDistinct | vlm_ocr_parser/pipeline.py:156-161 | in a strictly sorted file list no two files have the same key `str(f)` |
| VlmPipeline.ParsedPrefix | vlm_ocr_parser/pipeline.py:160-165 | the files before it all parse, and the file at it, if any, does not |
| VlmPipeline.ParseFiles | vlm_ocr_parser/pipeline.py:159-167 | the loop completes exactly when every file parses; otherwise it raises the first failing file's error; with no save flag nothing is saved |
| VlmPipeline.ParseFilesEntries | vlm_ocr_parser/pipeline.py:159-165 | a completed loop has one item per file, in file order, keyed `str(f)`, holding what the engine returned for that file |
| VlmPipeline.ParseFilesSavesSound | vlm_ocr_parser/pipeline.py:160-165 | every save belongs to a file parsed before the loop ended and to one of its results; nothing is saved for the failing file or later ones |
| VlmPipeline.ParseFilesSavesComplete | vlm_ocr_parser/pipeline.py:160-165 | every file parsed before the loop ended saved each of its results in each requested format, even when a later file failed |
| VlmPipeline.ParseDir | vlm_ocr_parser/pipeline.py:140-167 | the default patterns and flags apply when none are given, and every file is parsed with the run's flags; the run fails exactly when some file found does not parse; on success one item per file found, de-duplicated, in sorted path order, under distinct keys `str(f)`, holding the engine's results |

## Left out

- `ocr_service/app.py` is not part of this model. It covers FastAPI routing, the startup hook, the `asyncio.Lock` and `run_in_executor`, which are HTTP and concurrency plumbing.
- The HTTP fetch and the creation and write of the temporary file in `download_to_local` are I/O. Each is an oracle that either fails with an exception or succeeds. The temporary files left behind are not modelled.
- IoUtils.DownloadToLocal: states only the shape of the returned path. That is its prefix, the temporary directory and the suffix. The random middle part comes from the oracle.
- Service.ProcessItem: a downloaded file is taken to exist for the `is_file()` check, since `mkstemp` has just created it.
- PaddleOCR-VL and paddle internals are parameters. These are `predict`, the constructor, `set_device` and its global side effect, `randn`, the CUDA queries, and `save_to_markdown`/`save_to_json`. A save is recorded as an action, and a failing save is not modelled.
- The output directory's `mkdir` is an oracle that either fails with an exception or succeeds. The directory it creates is not tracked.
- All `print` logging is left out; it has no effect on results.
- The recursive glob semantics of `rglob` are an oracle per pattern.
- IoUtils.ListImagesInDir: a `stat` error is re-raised by `is_dir()` and `is_file()`, as in Python up to 3.13. Python 3.14 instead treats it as "no". Strict order is promised only for listings whose names are distinct, as an operating system's are.
- Service.ExtractNeverFails: its precondition is sufficient, not necessary. Some results outside it still extract without raising, for example a non-dict `json["markdown"]` when level one already has text. On the shapes where the source raises or returns a non-string, the model does the same.
- Service.Blocks: iterating a non-empty string or dict in the fallback is cut short at the first `.get`, which raises. The error message for a dict names the type of its first key as `str`. Dict keys are strings in this model.
- Paths.Suffix: follows the rule of CPython up to 3.13, where a final suffix is text after the last dot that is neither the first nor the last character.
- Paths.Parse: paths are parsed without the double-slash root that POSIX pathlib keeps for a leading `//`.
- Text.Lower: lower-cases ASCII only. No non-ASCII character lowers into one of the ASCII image extensions.
- Paths.PathLess: orders absolute paths before relative ones. Paths are then ordered component by component. The core only compares children of one directory, or paths under one search root.
- Exceptions that are not `Exception` subclasses, such as `KeyboardInterrupt`, are not modelled. The per-item `except Exception` would let them escape.
