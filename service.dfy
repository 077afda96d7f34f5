/**
 * The image service (img/service.go): a fixed pool of lanes chosen round
 * robin, and the HTTP handlers that turn a request into a command, hand it
 * to a lane and write the outcome.
 *
 * The loader and the transformations of the processor are opaque
 * functions; a handler's response is a value instead of writes to an
 * http.ResponseWriter.
 */
module ImageService {
  import opened Types
  import opened GoStrings
  import opened Negotiation
  import opened Lanes

  /** Loader.Load: the source image for a URL, or the loader's error message. */
  type Loader = string -> Result<Image, string>

  /** The Processor interface: the three transformations of the external engine. */
  datatype Processor = Processor(resize: Cmd, fitToSize: Cmd, optimise: Cmd)

  /** What a handler writes as the body. */
  datatype Body =
    | Text(message: string)          // http.Error's message
    | Bytes(data: seq<byte>)         // the image
    | EmptyGif                       // the 1x1 transparent placeholder

  datatype Response = Response(status: int, headers: seq<HeaderField>, body: Body)

  // ---------------------------------------------------------------------
  // Round-robin lane selection
  // ---------------------------------------------------------------------

  /** The cursor after one getQueue call: incremented first, wrapped to 0 at the pool size. */
  function NextLane(cur: nat, n: nat): (next: nat)
    requires cur < n
    ensures next < n
  {
    if cur + 1 == n then 0 else cur + 1
  }

  /** One getQueue call moves the cursor to its successor modulo the pool size. */
  lemma NextLaneIsSuccessorModulo(cur: nat, n: nat)
    requires cur < n
    ensures NextLane(cur, n) == (cur + 1) % n
  {
    if cur + 1 < n {
      assert (cur + 1) % n == cur + 1;
    }
  }

  /** The cursor after k getQueue calls. */
  function LaneAfter(start: nat, k: nat, n: nat): (lane: nat)
    requires start < n
    ensures lane < n
  {
    if k == 0 then start else NextLane(LaneAfter(start, k - 1, n), n)
  }

  /** Within one round, the k-th call from cursor start picks start + k, wrapped once past the end. */
  lemma {:induction false} LaneAfterInRound(start: nat, k: nat, n: nat)
    requires start < n && k <= n
    ensures LaneAfter(start, k, n) == if start + k < n then start + k else start + k - n
  {
    if k > 0 {
      LaneAfterInRound(start, k - 1, n);
    }
  }

  /** A positive multiple of n is at least n. */
  lemma {:induction false} MulAtLeast(n: int, d: int)
    requires n > 0 && d >= 1
    ensures n * d >= n
    decreases d
  {
    if d > 1 {
      MulAtLeast(n, d - 1);
      assert n * d == n * (d - 1) + n;
    }
  }

  /** Remainders are unique: x = n * q + r with 0 <= r < n fixes x % n. */
  lemma ModUnique(x: int, n: int, q: int, r: int)
    requires n > 0 && 0 <= r < n && x == n * q + r
    ensures x % n == r
  {
    var q', r' := x / n, x % n;
    assert x == n * q' + r';
    var d := q' - q;
    assert n * d == n * q' - n * q;
    if d >= 1 {
      MulAtLeast(n, d);
      assert false;
    } else if d <= -1 {
      assert n * (-d) == -(n * d);
      MulAtLeast(n, -d);
      assert false;
    }
  }

  /** Adding one after reducing modulo n lands where adding one first does. */
  lemma ModSuccessor(a: nat, n: nat)
    requires n > 0
    ensures ((a % n) + 1) % n == (a + 1) % n
  {
    var q, r := a / n, a % n;
    assert a == n * q + r;
    if r + 1 < n {
      ModUnique(r + 1, n, 0, r + 1);
      ModUnique(a + 1, n, q, r + 1);
    } else {
      ModUnique(r + 1, n, 1, 0);
      assert n * (q + 1) == n * q + n;
      ModUnique(a + 1, n, q + 1, 0);
    }
  }

  /** The cursor after any number k of getQueue calls is start + k modulo the pool size. */
  lemma {:induction false} LaneAfterModulo(start: nat, k: nat, n: nat)
    requires start < n
    ensures LaneAfter(start, k, n) == (start + k) % n
  {
    if k > 0 {
      LaneAfterModulo(start, k - 1, n);
      NextLaneIsSuccessorModulo(LaneAfter(start, k - 1, n), n);
      ModSuccessor(start + k - 1, n);
    }
  }

  /** The lanes of the next n submissions after cursor start, in order. */
  function Round(start: nat, n: nat): (lanes: seq<nat>)
    requires start < n
    ensures |lanes| == n
  {
    seq(n, i requires 0 <= i < n => LaneAfter(start, i + 1, n))
  }

  /**
   * Any n consecutive submissions visit every lane exactly once: the lanes
   * of one round are pairwise distinct and cover the pool.
   */
  lemma RoundRobinVisitsEveryLaneOnce(start: nat, n: nat)
    requires start < n
    ensures forall i, j :: 0 <= i < j < n ==> Round(start, n)[i] != Round(start, n)[j]
    ensures forall lane :: 0 <= lane < n ==> lane in Round(start, n)
  {
    var r := Round(start, n);
    forall i | 0 <= i < n ensures r[i] == if start + i + 1 < n then start + i + 1 else start + i + 1 - n {
      LaneAfterInRound(start, i + 1, n);
    }
    forall lane | 0 <= lane < n ensures lane in r {
      var i := if lane > start then lane - start - 1 else lane + n - start - 1;
      assert r[i] == lane;
    }
  }

  /** The quirk of getQueue: the first submission of a fresh service goes to lane 1 when there are several. */
  lemma FirstSubmissionLane(n: nat)
    requires n > 0
    ensures NextLane(0, n) == (if n == 1 then 0 else 1)
  {
  }

  // ---------------------------------------------------------------------
  // Writing results
  // ---------------------------------------------------------------------

  /** writeResult: the error as a 500, or the image with addHeaders' headers. */
  function WriteResult(headers: seq<HeaderField>, s: CommandState, ttl: int): (resp: Response)
    requires s.result.Some? || s.err.Some?
    ensures s.err.Some? ==>
      resp == Response(500, headers, Text("Error transforming image: '" + s.err.value + "'"))
    ensures s.err.None? ==>
      resp.status == 200 && resp.body == Bytes(s.result.value.data)
      && resp.headers == headers + AddHeaders(s.result.value, ttl)
  {
    if s.err.Some? then Response(500, headers, Text("Error transforming image: '" + s.err.value + "'"))
    else Response(200, headers + AddHeaders(s.result.value, ttl), Bytes(s.result.value.data))
  }

  /**
   * What writeResult promises the client: a 500 exactly when the command
   * carries an error, the headers already set kept in front, and on a 200
   * the image bytes with a Content-Length that reads back as their number.
   */
  lemma WriteResultOutcome(headers: seq<HeaderField>, s: CommandState, ttl: int)
    requires s.result.Some? || s.err.Some?
    ensures var resp := WriteResult(headers, s, ttl);
      && (resp.status == 500 <==> s.err.Some?)
      && (resp.status == 200 <==> s.err.None?)
      && |resp.headers| >= |headers| && resp.headers[..|headers|] == headers
    ensures s.err.None? ==>
      var resp := WriteResult(headers, s, ttl);
      var cl := resp.headers[|resp.headers| - 2];
      && resp.body == Bytes(s.result.value.data)
      && cl.name == "Content-Length" && AllDigits(cl.value) && ParseDecimal(cl.value) == |s.result.value.data|
  {
    var resp := WriteResult(headers, s, ttl);
    assert resp.headers[..|headers|] == headers;
  }

  /** The state a command built by transformUrl ends in: its transformation applied to its config. */
  function Transformed(t: Cmd, cfg: TransformationConfig): (s: CommandState)
    ensures s.finished && EngineResult(s.result, s.err) == t(cfg)
  {
    Processed(CommandState(None, None, false), Some(t), cfg)
  }

  /** The response transformUrl gives, as a function of the request and the collaborators. */
  function TransformResponse(settings: Settings, req: Request, load: Loader, t: Cmd,
                             config: Option<ResizeConfig>): Response
  {
    var url := GetImgUrl(req);
    if url == "" then Response(400, [], Text("url param is required"))
    else
      var headers := [HeaderField("Vary", Vary(settings))];
      if HideImage(settings, req) then Response(200, headers, EmptyGif)
      else match load(url)
        case Failure(e) => Response(500, headers, Text("Error reading image: '" + e + "'"))
        case Success(src) =>
          var cfg := TransformationConfig(src, SupportedFormats(req.header), GetQuality(settings, req), config);
          WriteResult(headers, Transformed(t, cfg), settings.cacheTTL)
  }

  /** transformUrl hands a command to a lane exactly when the URL is present, no placeholder is due and the load succeeds. */
  predicate Submits(settings: Settings, req: Request, load: Loader) {
    GetImgUrl(req) != "" && !HideImage(settings, req) && load(GetImgUrl(req)).Success?
  }

  /**
   * transformUrl answers 400 exactly when the URL is missing; load and engine
   * errors are 500s, and every other response is a 200.
   */
  lemma TransformStatus(settings: Settings, req: Request, load: Loader, t: Cmd, config: Option<ResizeConfig>)
    ensures TransformResponse(settings, req, load, t, config).status in {200, 400, 500}
    ensures TransformResponse(settings, req, load, t, config).status == 400 <==> GetImgUrl(req) == ""
    ensures GetImgUrl(req) != "" && !HideImage(settings, req) && load(GetImgUrl(req)).Failure? ==>
      TransformResponse(settings, req, load, t, config).status == 500
    ensures Submits(settings, req, load) ==>
      var cfg := TransformationConfig(load(GetImgUrl(req)).value, SupportedFormats(req.header),
                                      GetQuality(settings, req), config);
      TransformResponse(settings, req, load, t, config).status == (if Transformed(t, cfg).err.Some? then 500 else 200)
    ensures GetImgUrl(req) != "" && HideImage(settings, req) ==>
      TransformResponse(settings, req, load, t, config).status == 200
  {
  }

  /**
   * Every response of transformUrl other than the missing-URL 400 starts
   * with Vary, "Accept, Save-Data" or "Accept" after the setting, and has no
   * other Vary field; the missing-URL 400 has no header at all.
   */
  lemma TransformVaryFirst(settings: Settings, req: Request, load: Loader, t: Cmd, config: Option<ResizeConfig>)
    ensures var resp := TransformResponse(settings, req, load, t, config);
      GetImgUrl(req) == "" ==> resp.headers == []
    ensures var resp := TransformResponse(settings, req, load, t, config);
      GetImgUrl(req) != "" ==>
        && |resp.headers| >= 1
        && resp.headers[0] == HeaderField("Vary", if settings.saveDataEnabled then "Accept, Save-Data" else "Accept")
        && forall k :: 1 <= k < |resp.headers| ==> resp.headers[k].name != "Vary"
  {
    var url := GetImgUrl(req);
    var resp := TransformResponse(settings, req, load, t, config);
    if url != "" && !HideImage(settings, req) && load(url).Success? {
      var cfg := TransformationConfig(load(url).value, SupportedFormats(req.header), GetQuality(settings, req), config);
      var s := Transformed(t, cfg);
      if s.err.None? {
        var hs := AddHeaders(s.result.value, settings.cacheTTL);
        AddHeadersOmitVary(s.result.value, settings.cacheTTL);
        assert resp.headers == [HeaderField("Vary", Vary(settings))] + hs;
      } else {
        assert resp.headers == [HeaderField("Vary", Vary(settings))];
      }
    } else if url != "" {
      assert resp.headers == [HeaderField("Vary", Vary(settings))];
    }
  }

  /** addHeaders writes no Vary field. */
  lemma AddHeadersOmitVary(image: Image, ttl: int)
    ensures forall k :: 0 <= k < |AddHeaders(image, ttl)| ==> AddHeaders(image, ttl)[k].name != "Vary"
  {
    var hs := AddHeaders(image, ttl);
    forall k | 0 <= k < |hs| ensures hs[k].name != "Vary" {
      if !(image.mimeType != "" && k == 0) {
        assert k == |hs| - 2 || k == |hs| - 1;
      }
    }
  }

  /**
   * transformUrl reads the request only through the negotiated URL, the
   * placeholder decision, the accepted formats and the quality tier.
   */
  lemma TransformResponseReadsNegotiation(settings: Settings, req: Request, req': Request,
                                          load: Loader, t: Cmd, config: Option<ResizeConfig>)
    requires GetImgUrl(req') == GetImgUrl(req)
    requires HideImage(settings, req') == HideImage(settings, req)
    requires SupportedFormats(req'.header) == SupportedFormats(req.header)
    requires GetQuality(settings, req') == GetQuality(settings, req)
    ensures TransformResponse(settings, req', load, t, config) == TransformResponse(settings, req, load, t, config)
  {
  }

  /**
   * Vary omits Save-Data only when the Save-Data header cannot change the
   * response: with the hint disabled, two requests whose headers differ
   * only in Save-Data are answered alike.
   */
  lemma SaveDataHeaderIgnoredWhenNotVaried(settings: Settings, req: Request, header': Values,
                                          load: Loader, t: Cmd, config: Option<ResizeConfig>)
    requires !settings.saveDataEnabled
    requires forall key :: key != "Save-Data" ==> Lookup(header', key) == Lookup(req.header, key)
    ensures Vary(settings) == "Accept"
    ensures TransformResponse(settings, req.(header := header'), load, t, config)
         == TransformResponse(settings, req, load, t, config)
  {
    var req' := req.(header := header');
    assert Lookup(header', "X-Forwarded-Proto") == Lookup(req.header, "X-Forwarded-Proto");
    assert Lookup(header', "Accept") == Lookup(req.header, "Accept");
    TransformResponseReadsNegotiation(settings, req, req', load, t, config);
  }

  /**
   * transformUrl answers with the empty GIF exactly when the URL is present,
   * Save-Data is enabled, the header is "on" and save-data=hide is given
   * once; no loader or engine outcome produces it otherwise.
   */
  lemma PlaceholderExactlyWhenHidden(settings: Settings, req: Request, load: Loader, t: Cmd,
                                     config: Option<ResizeConfig>)
    ensures TransformResponse(settings, req, load, t, config).body == EmptyGif <==>
      (GetImgUrl(req) != "" && settings.saveDataEnabled
       && HeaderGet(req.header, "Save-Data") == "on"
       && Lookup(req.query, "save-data") == ["hide"])
  {
  }

  /**
   * The Save-Data placeholder does not depend on the loader or the
   * engine: neither is consulted.
   */
  lemma PlaceholderIgnoresCollaborators(settings: Settings, req: Request, config: Option<ResizeConfig>,
                                        load: Loader, t: Cmd, load': Loader, t': Cmd)
    requires GetImgUrl(req) != "" && HideImage(settings, req)
    ensures TransformResponse(settings, req, load, t, config) == TransformResponse(settings, req, load', t', config)
    ensures TransformResponse(settings, req, load, t, config).body == EmptyGif
  {
  }

  /** The response AsIs gives: the loaded image unchanged, Content-Type written twice when known. */
  function AsIsResponse(req: Request, load: Loader, ttl: int): Response {
    var url := GetImgUrl(req);
    if url == "" then Response(400, [], Text("url param is required"))
    else match load(url)
      case Failure(e) => Response(500, [], Text("Error reading image: '" + e + "'"))
      case Success(img) =>
        var headers := if |img.mimeType| > 0 then [HeaderField("Content-Type", img.mimeType)] else [];
        WriteResult(headers, CommandState(Some(img), None, true), ttl)
  }

  /** A successful AsIs returns the source bytes, with Content-Type twice when the MIME type is known. */
  lemma AsIsReturnsSource(req: Request, load: Loader, ttl: int)
    requires GetImgUrl(req) != "" && load(GetImgUrl(req)).Success?
    ensures var img := load(GetImgUrl(req)).value;
      var resp := AsIsResponse(req, load, ttl);
      && resp.status == 200 && resp.body == Bytes(img.data)
      && (img.mimeType != "" ==>
            resp.headers[0] == resp.headers[1] == HeaderField("Content-Type", img.mimeType))
  {
  }

  // ---------------------------------------------------------------------
  // The service
  // ---------------------------------------------------------------------

  /**
   * What a handler adds to the history of lane i when the cursor ends at
   * chosen: the submitted command's Finished and callback events on the
   * chosen lane, nothing elsewhere, and nothing at all when no command
   * was submitted.
   */
  ghost function LaneEvents(op: Command?, i: int, chosen: int): seq<Event> {
    if op != null && i == chosen then [Finished(op), CallbackRan(op)] else []
  }

  class Service {
    const loader: Loader
    const processor: Processor
    /** The pool Q, one lane per processor; its length never changes. */
    const q: array<Lane?>
    /** The round-robin cursor currProc: the lane of the latest submission. */
    var currProc: int

    /** The lanes of the pool. */
    ghost function Lanes(): set<Lane>
      reads this, q
    {
      set i | 0 <= i < q.Length && q[i] != null :: q[i]
    }

    /**
     * Every slot holds a lane, the cursor points into the pool, and between
     * two submissions (the model is sequential) every lane is idle.
     */
    ghost predicate Valid()
      reads this, q, Lanes()
    {
      && q.Length > 0
      && 0 <= currProc < q.Length
      && (forall i :: 0 <= i < q.Length ==> q[i] != null && q[i].ops == [])
      && (forall i, j :: 0 <= i < j < q.Length ==> q[i] != q[j])
    }

    /** The struct literal of NewService: a pool of procNum empty slots. */
    constructor (r: Loader, p: Processor, procNum: nat)
      ensures loader == r && processor == p
      ensures fresh(q) && q.Length == procNum && currProc == 0
      ensures forall i :: 0 <= i < procNum ==> q[i] == null
    {
      loader := r;
      processor := p;
      q := new Lane?[procNum](_ => null);
      currProc := 0;
    }

    /** getQueue: advance the cursor, wrapping at the pool size, and return the lane it now points to. */
    method GetQueue() returns (lane: Lane)
      requires Valid()
      modifies this`currProc
      ensures Valid()
      ensures currProc == NextLane(old(currProc), q.Length)
      ensures lane == q[currProc]
    {
      currProc := currProc + 1;
      if currProc == q.Length {
        currProc := 0;
      }
      lane := q[currProc];
    }

    /**
     * execOp: pick a lane, hand it the command, wait, and write the result
     * once the command is finished.
     */
    method ExecOp(op: Command, headers: seq<HeaderField>, ttl: int) returns (resp: Response)
      requires Valid() && op.Runnable() && !op.finished
      modifies this`currProc, Lanes(), op
      ensures Valid()
      ensures currProc == NextLane(old(currProc), q.Length)
      ensures Done(op, old(op.State()), old(op.runs))
      ensures forall i :: 0 <= i < q.Length ==>
        q[i].trace == old(q[i].trace) + if i == currProc then [Finished(op), CallbackRan(op)] else []
      ensures resp == WriteResult(headers, op.State(), ttl)
    {
      var lane := GetQueue();
      resp := lane.AddAndWait(op, (s: CommandState) requires s.result.Some? || s.err.Some? => WriteResult(headers, s, ttl));
      assert FinishEvents([] + [op]) == [Finished(op)];
    }

    /**
     * transformUrl: check the URL, write Vary, answer the Save-Data
     * placeholder, load the source, and run the transformation on a lane.
     * The ghost op is the command handed to a lane, or null when none is.
     */
    method TransformUrl(settings: Settings, req: Request, t: Cmd, config: Option<ResizeConfig>)
      returns (resp: Response, ghost op: Command?)
      requires Valid()
      modifies this`currProc, Lanes()
      ensures Valid()
      ensures resp == TransformResponse(settings, req, loader, t, config)
      ensures op != null <==> Submits(settings, req, loader)
      ensures currProc == if op != null then NextLane(old(currProc), q.Length) else old(currProc)
      ensures op != null ==>
        && fresh(op) && op.transformation == Some(t) && op.finished && op.runs == 1
        && op.State() == Transformed(t, op.config)
        && op.config == TransformationConfig(loader(GetImgUrl(req)).value, SupportedFormats(req.header),
                                             GetQuality(settings, req), config)
      ensures forall i :: 0 <= i < q.Length ==> q[i].trace == old(q[i].trace) + LaneEvents(op, i, currProc)
      ensures op != null ==> CallbackLastAndOnce(q[currProc].trace, op)
    {
      op := null;
      var imgUrl := GetImgUrl(req);
      if |imgUrl| == 0 {
        return Response(400, [], Text("url param is required")), op;
      }
      var headers := [HeaderField("Vary", Vary(settings))];
      if HideImage(settings, req) {
        return Response(200, headers, EmptyGif), op;
      }
      var supportedFormats := GetSupportedFormats(req);
      var loaded := loader(imgUrl);
      if loaded.Failure? {
        return Response(500, headers, Text("Error reading image: '" + loaded.error + "'")), op;
      }
      var cfg := TransformationConfig(loaded.value, supportedFormats, GetQuality(settings, req), config);
      assert Submits(settings, req, loader);
      var cmd;
      resp, cmd := ExecTransformation(t, cfg, headers, settings.cacheTTL);
      op := cmd;
    }

    /** The end of transformUrl: a new command for the configuration, run on the next lane. */
    method ExecTransformation(t: Cmd, cfg: TransformationConfig, headers: seq<HeaderField>, ttl: int)
      returns (resp: Response, op: Command)
      requires Valid()
      modifies this`currProc, Lanes()
      ensures Valid()
      ensures currProc == NextLane(old(currProc), q.Length)
      ensures fresh(op) && op.transformation == Some(t) && op.config == cfg && op.finished && op.runs == 1
      ensures op.State() == Transformed(t, cfg)
      ensures forall i :: 0 <= i < q.Length ==> q[i].trace == old(q[i].trace) + LaneEvents(op, i, currProc)
      ensures CallbackLastAndOnce(q[currProc].trace, op)
      ensures resp == WriteResult(headers, Transformed(t, cfg), ttl)
    {
      op := new Command(Some(t), cfg, None);
      ghost var before := q[NextLane(currProc, q.Length)].trace;
      assert CallbackRan(op) !in before;
      resp := ExecOp(op, headers, ttl);
      CallbackOnceAfterFinish(before, [], op);
    }

    /** OptimiseUrl: transformUrl with the processor's Optimise and no size. */
    method OptimiseUrl(settings: Settings, req: Request) returns (resp: Response, ghost op: Command?)
      requires Valid()
      modifies this`currProc, Lanes()
      ensures Valid()
      ensures resp == TransformResponse(settings, req, loader, processor.optimise, None)
      ensures op != null <==> Submits(settings, req, loader)
      ensures currProc == if op != null then NextLane(old(currProc), q.Length) else old(currProc)
      ensures op != null ==> fresh(op) && op.transformation == Some(processor.optimise)
      ensures op != null ==>
        op.config == TransformationConfig(loader(GetImgUrl(req)).value, SupportedFormats(req.header),
                                          GetQuality(settings, req), None)
      ensures op != null ==> op.runs == 1 && op.State() == Transformed(processor.optimise, op.config)
      ensures op != null ==> CallbackLastAndOnce(q[currProc].trace, op)
      ensures forall i :: 0 <= i < q.Length ==> q[i].trace == old(q[i].trace) + LaneEvents(op, i, currProc)
    {
      resp, op := TransformUrl(settings, req, processor.optimise, None);
    }

    /** The size check shared by ResizeUrl (loose grammar) and FitToSizeUrl (strict grammar). */
    method SizedTransform(settings: Settings, req: Request, t: Cmd, strict: bool)
      returns (resp: Response, ghost op: Command?)
      requires Valid()
      modifies this`currProc, Lanes()
      ensures Valid()
      ensures CheckSize(req.query, strict) == SizeMissing ==>
        resp == Response(400, [], Text("size param is required"))
      ensures CheckSize(req.query, strict) == SizeMalformed ==>
        resp == Response(400, [], Text("size param should be in format WxH"))
      ensures CheckSize(req.query, strict).SizeAccepted? ==>
        resp == TransformResponse(settings, req, loader, t, Some(ResizeConfig(CheckSize(req.query, strict).size)))
      ensures op != null <==> CheckSize(req.query, strict).SizeAccepted? && Submits(settings, req, loader)
      ensures currProc == if op != null then NextLane(old(currProc), q.Length) else old(currProc)
      ensures op != null ==>
        fresh(op) && op.transformation == Some(t) && op.runs == 1 && op.State() == Transformed(t, op.config)
        && op.config == TransformationConfig(loader(GetImgUrl(req)).value, SupportedFormats(req.header),
                                             GetQuality(settings, req), Some(ResizeConfig(CheckSize(req.query, strict).size)))
      ensures forall i :: 0 <= i < q.Length ==> q[i].trace == old(q[i].trace) + LaneEvents(op, i, currProc)
      ensures op != null ==> CallbackLastAndOnce(q[currProc].trace, op)
    {
      op := null;
      var size := GetQueryParam(req.query, "size");
      if |size| == 0 {
        return Response(400, [], Text("size param is required")), op;
      }
      if !MatchesSize(size, strict) {
        return Response(400, [], Text("size param should be in format WxH")), op;
      }
      resp, op := TransformUrl(settings, req, t, Some(ResizeConfig(size)));
    }

    /** ResizeUrl: a size in the loose grammar, then transformUrl with Resize. */
    method ResizeUrl(settings: Settings, req: Request) returns (resp: Response, ghost op: Command?)
      requires Valid()
      modifies this`currProc, Lanes()
      ensures Valid()
      ensures GetQueryParam(req.query, "size") == "" ==>
        resp == Response(400, [], Text("size param is required")) && op == null
      ensures GetQueryParam(req.query, "size") != "" && !LooseSize(GetQueryParam(req.query, "size")) ==>
        resp == Response(400, [], Text("size param should be in format WxH")) && op == null
      ensures GetQueryParam(req.query, "size") != "" && LooseSize(GetQueryParam(req.query, "size")) ==>
        resp == TransformResponse(settings, req, loader, processor.resize,
                                  Some(ResizeConfig(GetQueryParam(req.query, "size"))))
        && (op != null <==> Submits(settings, req, loader))
      ensures currProc == if op != null then NextLane(old(currProc), q.Length) else old(currProc)
      ensures op != null ==> fresh(op) && op.transformation == Some(processor.resize)
      ensures op != null ==>
        op.config == TransformationConfig(loader(GetImgUrl(req)).value, SupportedFormats(req.header),
                                          GetQuality(settings, req), Some(ResizeConfig(GetQueryParam(req.query, "size"))))
      ensures op != null ==> op.runs == 1 && op.State() == Transformed(processor.resize, op.config)
      ensures op != null ==> CallbackLastAndOnce(q[currProc].trace, op)
      ensures forall i :: 0 <= i < q.Length ==> q[i].trace == old(q[i].trace) + LaneEvents(op, i, currProc)
    {
      resp, op := SizedTransform(settings, req, processor.resize, false);
    }

    /** FitToSizeUrl: a size in the strict grammar, then transformUrl with FitToSize. */
    method FitToSizeUrl(settings: Settings, req: Request) returns (resp: Response, ghost op: Command?)
      requires Valid()
      modifies this`currProc, Lanes()
      ensures Valid()
      ensures GetQueryParam(req.query, "size") == "" ==>
        resp == Response(400, [], Text("size param is required")) && op == null
      ensures GetQueryParam(req.query, "size") != "" && !StrictSize(GetQueryParam(req.query, "size")) ==>
        resp == Response(400, [], Text("size param should be in format WxH")) && op == null
      ensures GetQueryParam(req.query, "size") != "" && StrictSize(GetQueryParam(req.query, "size")) ==>
        resp == TransformResponse(settings, req, loader, processor.fitToSize,
                                  Some(ResizeConfig(GetQueryParam(req.query, "size"))))
        && (op != null <==> Submits(settings, req, loader))
      ensures currProc == if op != null then NextLane(old(currProc), q.Length) else old(currProc)
      ensures op != null ==> fresh(op) && op.transformation == Some(processor.fitToSize)
      ensures op != null ==>
        op.config == TransformationConfig(loader(GetImgUrl(req)).value, SupportedFormats(req.header),
                                          GetQuality(settings, req), Some(ResizeConfig(GetQueryParam(req.query, "size"))))
      ensures op != null ==> op.runs == 1 && op.State() == Transformed(processor.fitToSize, op.config)
      ensures op != null ==> CallbackLastAndOnce(q[currProc].trace, op)
      ensures forall i :: 0 <= i < q.Length ==> q[i].trace == old(q[i].trace) + LaneEvents(op, i, currProc)
    {
      resp, op := SizedTransform(settings, req, processor.fitToSize, true);
    }

    /**
     * AsIs: load the image and pass it through a lane untransformed, so
     * that it keeps its place in the lane's order. The ghost op is the
     * pass-through command, or null when the request ends before a lane.
     */
    method AsIs(settings: Settings, req: Request) returns (resp: Response, ghost op: Command?)
      requires Valid()
      modifies this`currProc, Lanes()
      ensures Valid()
      ensures resp == AsIsResponse(req, loader, settings.cacheTTL)
      ensures op != null <==> GetImgUrl(req) != "" && loader(GetImgUrl(req)).Success?
      ensures currProc == if op != null then NextLane(old(currProc), q.Length) else old(currProc)
      ensures op != null ==>
        && fresh(op) && op.transformation.None? && op.runs == 0 && op.finished
        && op.result == Some(loader(GetImgUrl(req)).value) && op.err.None?
      ensures forall i :: 0 <= i < q.Length ==> q[i].trace == old(q[i].trace) + LaneEvents(op, i, currProc)
      ensures op != null ==> CallbackLastAndOnce(q[currProc].trace, op)
    {
      op := null;
      var imgUrl := GetImgUrl(req);
      if |imgUrl| == 0 {
        return Response(400, [], Text("url param is required")), op;
      }
      var result := loader(imgUrl);
      if result.Failure? {
        return Response(500, [], Text("Error reading image: '" + result.error + "'")), op;
      }
      var headers := if |result.value.mimeType| > 0 then [HeaderField("Content-Type", result.value.mimeType)] else [];
      var cmd;
      resp, cmd := ExecPassThrough(imgUrl, result.value, headers, settings.cacheTTL);
      op := cmd;
    }

    /** The end of AsIs: a command already carrying the loaded image, passed through the next lane. */
    method ExecPassThrough(imgUrl: string, img: Image, headers: seq<HeaderField>, ttl: int)
      returns (resp: Response, op: Command)
      requires Valid()
      modifies this`currProc, Lanes()
      ensures Valid()
      ensures currProc == NextLane(old(currProc), q.Length)
      ensures fresh(op) && op.transformation.None? && op.runs == 0 && op.finished
      ensures op.result == Some(img) && op.err.None?
      ensures forall i :: 0 <= i < q.Length ==> q[i].trace == old(q[i].trace) + LaneEvents(op, i, currProc)
      ensures CallbackLastAndOnce(q[currProc].trace, op)
      ensures resp == WriteResult(headers, CommandState(Some(img), None, true), ttl)
    {
      op := new Command(None, TransformationConfig(Image(imgUrl, [], ""), [], 0, None), Some(img));
      ghost var before := q[NextLane(currProc, q.Length)].trace;
      assert CallbackRan(op) !in before;
      resp := ExecOp(op, headers, ttl);
      CallbackOnceAfterFinish(before, [], op);
    }
  }

  /**
   * NewService: refuse a pool size that is not positive; otherwise a pool
   * of procNum distinct idle lanes and the cursor at 0.
   */
  method NewService(r: Loader, p: Processor, procNum: int) returns (res: Result<Service, string>)
    ensures res.Failure? <==> procNum <= 0
    ensures res.Failure? ==> res.error == "procNum must be positive, but got [" + FormatInt(procNum) + "]"
    ensures res.Success? ==>
      var srv := res.value;
      && fresh(srv) && fresh(srv.q) && srv.Valid()
      && srv.loader == r && srv.processor == p
      && srv.q.Length == procNum && srv.currProc == 0
      && (forall i :: 0 <= i < procNum ==> fresh(srv.q[i]) && srv.q[i].trace == [])
      && (forall i, j :: 0 <= i < j < procNum ==> srv.q[i] != srv.q[j])
  {
    if procNum <= 0 {
      return Failure("procNum must be positive, but got [" + FormatInt(procNum) + "]");
    }
    var srv := new Service(r, p, procNum);
    for i := 0 to procNum
      invariant forall k :: 0 <= k < i ==>
        srv.q[k] != null && fresh(srv.q[k]) && srv.q[k].ops == [] && srv.q[k].trace == []
      invariant forall k, l :: 0 <= k < l < i ==> srv.q[k] != srv.q[l]
    {
      srv.q[i] := new Lane();
    }
    srv.currProc := 0;
    return Success(srv);
  }
}
