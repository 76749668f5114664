/** The process-wide engine of the OCR service (ocr_service/ocr_vl/model.py):
    built lazily on the first call, on the GPU when CUDA has a device, and
    reused by every later call. */
module OcrModel {
  import opened Wrappers
  import opened Paddle

  /** What paddle reports about CUDA: whether it was compiled in and how many
      devices it sees. */
  datatype CudaEnv = CudaEnv(compiledWithCuda: bool, deviceCount: nat)

  /** The module-level `_pipeline` variable. */
  datatype Cache = Cache(pipeline: Option<OcrPipeline>)

  /** One call of `init_pipeline`: the cache afterwards, the value returned or
      the exception raised, and the configurations `PaddleOCRVL` was
      constructed with during the call, in order. */
  datatype InitResult = InitResult(cache: Cache, pipeline: Result<OcrPipeline, PyError>, attempts: seq<EngineConfig>)

  /** The device the service builds its engine on. */
  function ServiceDevice(cuda: CudaEnv): (d: string)
    ensures d == "gpu:0" <==> cuda.compiledWithCuda && cuda.deviceCount > 0
    ensures d == "cpu" <==> !(cuda.compiledWithCuda && cuda.deviceCount > 0)
  {
    if cuda.compiledWithCuda && cuda.deviceCount > 0 then "gpu:0" else "cpu"
  }

  /** `init_pipeline` */
  function InitPipeline(cache: Cache, cuda: CudaEnv, construct: Constructor): (r: InitResult)
    ensures cache.pipeline.Some? ==> r == InitResult(cache, Success(cache.pipeline.value), [])
    ensures cache.pipeline.None? ==>
      r.attempts == [EngineConfig(ServiceDevice(cuda), true, true)] && r.pipeline == construct(r.attempts[0])
    ensures r.pipeline.Success? ==> r.cache.pipeline == Some(r.pipeline.value)
    ensures r.pipeline.Failure? ==> r.cache == cache
  {
    match cache.pipeline
    case Some(pl) => InitResult(cache, Success(pl), [])
    case None =>
      var config := EngineConfig(ServiceDevice(cuda), true, true);
      match construct(config)
      case Success(pl) => InitResult(Cache(Some(pl)), Success(pl), [config])
      case Failure(e) => InitResult(cache, Failure(e), [config])
  }

  /** Once a call has succeeded, every later call returns the same instance
      and constructs nothing, whatever CUDA or the constructor would now do. */
  lemma InitPipelineIdempotent(cache: Cache, cuda: CudaEnv, construct: Constructor, cuda': CudaEnv, construct': Constructor)
    requires InitPipeline(cache, cuda, construct).pipeline.Success?
    ensures var first := InitPipeline(cache, cuda, construct);
            InitPipeline(first.cache, cuda', construct') == InitResult(first.cache, first.pipeline, [])
  {
  }

  /** A failed construction leaves the cache empty, so the next call builds
      again. */
  lemma InitPipelineRetriesAfterFailure(cache: Cache, cuda: CudaEnv, construct: Constructor, cuda': CudaEnv, construct': Constructor)
    requires cache.pipeline.None?
    requires InitPipeline(cache, cuda, construct).pipeline.Failure?
    ensures |InitPipeline(InitPipeline(cache, cuda, construct).cache, cuda', construct').attempts| == 1
  {
  }

  /** One call of `init_pipeline`, with the environment it observes. */
  datatype InitCall = InitCall(cuda: CudaEnv, construct: Constructor)

  /** A series of calls, each seeing the cache the previous one left. */
  function InitSeries(cache: Cache, calls: seq<InitCall>): (rs: seq<InitResult>)
    ensures |rs| == |calls|
    decreases |calls|
  {
    if |calls| == 0 then []
    else
      var first := InitPipeline(cache, calls[0].cuda, calls[0].construct);
      [first] + InitSeries(first.cache, calls[1..])
  }

  /** A call that built the engine, as opposed to one that reused it. */
  predicate Built(r: InitResult) {
    |r.attempts| > 0 && r.pipeline.Success?
  }

  /** However many times it is called, `init_pipeline` builds at most one
      engine, and every successful call returns that same engine. */
  lemma {:induction false} InitSeriesBuildsOnce(cache: Cache, calls: seq<InitCall>)
    ensures forall i, j :: 0 <= i < j < |calls| ==>
      !(Built(InitSeries(cache, calls)[i]) && Built(InitSeries(cache, calls)[j]))
    ensures forall i, j ::
      (0 <= i < |calls| && 0 <= j < |calls| &&
       InitSeries(cache, calls)[i].pipeline.Success? && InitSeries(cache, calls)[j].pipeline.Success?) ==>
      InitSeries(cache, calls)[i].pipeline.value == InitSeries(cache, calls)[j].pipeline.value
    ensures cache.pipeline.Some? ==> forall r :: r in InitSeries(cache, calls) ==> r.pipeline == Success(cache.pipeline.value) && r.attempts == []
    decreases |calls|
  {
    if |calls| > 0 {
      var first := InitPipeline(cache, calls[0].cuda, calls[0].construct);
      var rest := InitSeries(first.cache, calls[1..]);
      InitSeriesBuildsOnce(first.cache, calls[1..]);
      var rs := InitSeries(cache, calls);
      assert rs == [first] + rest;
      if first.pipeline.Failure? {
        assert first.cache == cache;
      }
      forall i, j | 0 <= i < |rs| && 0 <= j < |rs| && rs[i].pipeline.Success? && rs[j].pipeline.Success?
        ensures rs[i].pipeline.value == rs[j].pipeline.value
      {
        if i > 0 && j > 0 {
          assert rs[i] == rest[i - 1] && rs[j] == rest[j - 1];
        } else if first.pipeline.Success? {
          if i > 0 {
            assert rs[i] == rest[i - 1] && rest[i - 1] in rest;
          }
          if j > 0 {
            assert rs[j] == rest[j - 1] && rest[j - 1] in rest;
          }
        }
      }
      forall i, j | 0 <= i < j < |rs| ensures !(Built(rs[i]) && Built(rs[j])) {
        assert rs[j] == rest[j - 1];
        if i == 0 {
          if Built(first) {
            assert rest[j - 1] in rest;
          }
        } else {
          assert rs[i] == rest[i - 1];
        }
      }
    }
  }
}
