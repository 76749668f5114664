/** The boundary to the foreign OCR library and to Python's object model: the
    exceptions the core raises or catches, the loosely typed values an engine
    result carries, and the engine itself as an opaque handle whose
    construction and prediction are oracles supplied by the caller. */
module Paddle {
  import opened Wrappers

  /** The exception classes the core distinguishes. `RuntimeError` stands for
      that class and its subclasses, as `except RuntimeError` catches them. */
  datatype ErrorKind =
    | RuntimeError
    | FileNotFoundError
    | AttributeError
    | TypeError
    | OtherError(className: string)

  /** A raised exception; `message` is what `str(e)` returns. */
  datatype PyError = PyError(kind: ErrorKind, message: string)

  /** A Python value found inside an engine result: a string, a list, a dict
      with string keys, or any other object (None, numbers, booleans), which is
      known only by its type name and its truthiness. */
  datatype Value =
    | Str(s: string)
    | List(items: seq<Value>)
    | Dict(fields: map<string, Value>)
    | Scalar(typeName: string, truthy: bool)

  /** Python truthiness: empty strings and containers are false. */
  predicate Truthy(v: Value) {
    match v
    case Str(s) => s != ""
    case List(items) => |items| > 0
    case Dict(fields) => |fields| > 0
    case Scalar(_, t) => t
  }

  /** Truthiness of a value that may be `None`. */
  predicate TruthyOpt(o: Option<Value>) {
    o.Some? && Truthy(o.value)
  }

  /** Truthiness of an optional string field such as `markdown` or `error`. */
  predicate TruthyText(o: Option<string>) {
    o.Some? && o.value != ""
  }

  function TypeName(v: Value): string {
    match v
    case Str(_) => "str"
    case List(_) => "list"
    case Dict(_) => "dict"
    case Scalar(t, _) => t
  }

  /** `d.get(key)` on a dict. */
  function Get(d: map<string, Value>, key: string): Option<Value> {
    if key in d then Some(d[key]) else None
  }

  /** One result object yielded by `predict`. Each attribute the extractor
      probes is `None` when the object does not have it. */
  datatype EngineOutput = EngineOutput(markdown: Option<Value>, json: Option<Value>)

  /** The keyword arguments a `PaddleOCRVL` instance is constructed with. */
  datatype EngineConfig = EngineConfig(device: string, useLayoutDetection: bool, formatBlockContent: bool)

  /** A constructed `PaddleOCRVL` instance, known only by identity. */
  datatype OcrPipeline = OcrPipeline(instance: nat)

  /** `PaddleOCRVL(**config)`: returns an instance or raises. */
  type Constructor = EngineConfig -> Result<OcrPipeline, PyError>

  /** `pipeline.predict(input)`: the per-page results or an exception. */
  type Predictor = (OcrPipeline, string) -> Result<seq<EngineOutput>, PyError>
}
