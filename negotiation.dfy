/**
 * The decisions img/service.go takes from a request before any image is
 * loaded: which URL to load, which output formats the client accepts,
 * which quality tier to use, whether Save-Data asks for a placeholder,
 * whether a size parameter is well formed, and which headers the
 * response carries.
 */
module Negotiation {
  import opened GoStrings
  import opened Types

  /** A multi-valued string map: url.Values for the query, http.Header for the headers. */
  type Values = map<string, seq<string>>

  /**
   * The parts of an HTTP request the service reads: the {imgUrl} route
   * variable, the headers (keys in canonical form) and the parsed query.
   */
  datatype Request = Request(imgUrl: string, header: Values, query: Values)

  /** The package-level settings CacheTTL and SaveDataEnabled. */
  datatype Settings = Settings(saveDataEnabled: bool, cacheTTL: int)

  datatype HeaderField = HeaderField(name: string, value: string)

  /** All values under key; a missing key reads as the empty list, as in Go. */
  function Lookup(m: Values, key: string): seq<string> {
    if key in m then m[key] else []
  }

  /** http.Header.Get: the first value under key, or "". */
  function HeaderGet(h: Values, key: string): string {
    var vs := Lookup(h, key);
    if |vs| > 0 then vs[0] else ""
  }

  // ---------------------------------------------------------------------
  // Query parameters and the image URL
  // ---------------------------------------------------------------------

  /** getQueryParam: the value of a parameter given exactly once, "" otherwise. */
  function GetQueryParam(query: Values, name: string): (v: string)
    ensures Lookup(query, name) == [v] || (v == "" && |Lookup(query, name)| != 1)
  {
    var vs := Lookup(query, name);
    if |vs| == 1 then vs[0] else ""
  }

  /** The request asks to complete a scheme-relative URL: "//..." and exactly one X-Forwarded-Proto. */
  predicate CompletesScheme(req: Request) {
    HasPrefix(req.imgUrl, "//") && |Lookup(req.header, "X-Forwarded-Proto")| == 1
  }

  /**
   * getImgUrl: the route variable, with a scheme-relative URL completed
   * with the forwarded protocol. Empty exactly when the route variable is.
   */
  function GetImgUrl(req: Request): (url: string)
    ensures url == "" <==> req.imgUrl == ""
    ensures CompletesScheme(req) ==> url == Lookup(req.header, "X-Forwarded-Proto")[0] + ":" + req.imgUrl
    ensures !CompletesScheme(req) ==> url == req.imgUrl
    ensures |url| >= |req.imgUrl| && url[|url| - |req.imgUrl|..] == req.imgUrl
  {
    if |req.imgUrl| == 0 then ""
    else if CompletesScheme(req) then Lookup(req.header, "X-Forwarded-Proto")[0] + ":" + req.imgUrl
    else req.imgUrl
  }

  // ---------------------------------------------------------------------
  // Accept header
  // ---------------------------------------------------------------------

  /** Each piece with surrounding white space removed, in order. */
  function TrimAll(pieces: seq<string>): (r: seq<string>)
    ensures |r| == |pieces| && forall k :: 0 <= k < |pieces| ==> r[k] == TrimSpace(pieces[k])
  {
    seq(|pieces|, k requires 0 <= k < |pieces| => TrimSpace(pieces[k]))
  }

  /**
   * The formats a request accepts: the first Accept header split on commas
   * and trimmed (q= parameters stay inside their entry), or the empty list
   * without an Accept header.
   */
  function SupportedFormats(h: Values): seq<string> {
    var accept := Lookup(h, "Accept");
    if |accept| > 0 then TrimAll(Split(accept[0], ',')) else []
  }

  /**
   * The list SupportedFormats gives has one trimmed entry per comma-separated
   * piece of the header, in header order, each entry being its piece less
   * surrounding white space; without an Accept header it is empty.
   */
  lemma SupportedFormatsShape(h: Values)
    ensures Lookup(h, "Accept") == [] ==> SupportedFormats(h) == []
    ensures Lookup(h, "Accept") != [] ==>
      var pieces := Split(Lookup(h, "Accept")[0], ',');
      && |SupportedFormats(h)| == Count(Lookup(h, "Accept")[0], ',') + 1
      && Join(pieces, ',') == Lookup(h, "Accept")[0]
      && forall k :: 0 <= k < |pieces| ==> TrimOf(SupportedFormats(h)[k], pieces[k])
    ensures forall k :: 0 <= k < |SupportedFormats(h)| ==> Trimmed(SupportedFormats(h)[k])
  {
    if Lookup(h, "Accept") != [] {
      var pieces := Split(Lookup(h, "Accept")[0], ',');
      SplitCount(Lookup(h, "Accept")[0], ',');
      forall k | 0 <= k < |pieces| ensures Trimmed(SupportedFormats(h)[k]) && TrimOf(SupportedFormats(h)[k], pieces[k]) {
        TrimSpaceTrims(pieces[k]);
      }
    }
  }

  /** getSupportedFormats: the trimmed entries are written into a fresh slice one by one. */
  method GetSupportedFormats(req: Request) returns (formats: seq<string>)
    ensures formats == SupportedFormats(req.header)
  {
    var acceptHeader := Lookup(req.header, "Accept");
    if |acceptHeader| > 0 {
      var accepts := Split(acceptHeader[0], ',');
      var trimmedAccepts := seq(|accepts|, _ => "");
      ghost var want := TrimAll(accepts);
      assert want == SupportedFormats(req.header);
      for i := 0 to |accepts|
        invariant |trimmedAccepts| == |accepts|
        invariant trimmedAccepts[..i] == want[..i]
      {
        trimmedAccepts := trimmedAccepts[i := TrimSpace(accepts[i])];
        assert trimmedAccepts[..i + 1] == trimmedAccepts[..i] + [want[i]];
      }
      assert trimmedAccepts == trimmedAccepts[..|accepts|];
      formats := trimmedAccepts;
    } else {
      formats := [];
    }
  }

  // ---------------------------------------------------------------------
  // Save-Data
  // ---------------------------------------------------------------------

  /**
   * getQuality: LOW only for an enabled Save-Data "on" hint. The opt-out is
   * a save-data parameter given exactly once as "off"; a repeated one reads
   * as absent and does not opt out.
   */
  function GetQuality(settings: Settings, req: Request): (q: Quality)
    ensures q == DEFAULT || q == LOW
    ensures q == LOW <==>
      (settings.saveDataEnabled
       && HeaderGet(req.header, "Save-Data") == "on"
       && Lookup(req.query, "save-data") != ["off"])
  {
    if settings.saveDataEnabled
       && HeaderGet(req.header, "Save-Data") == "on"
       && GetQueryParam(req.query, "save-data") != "off"
    then LOW
    else DEFAULT
  }

  /**
   * The placeholder short-circuit of transformUrl: Save-Data "on" together
   * with a save-data parameter given exactly once as "hide".
   */
  function HideImage(settings: Settings, req: Request): (placeholder: bool)
    ensures placeholder <==>
      (settings.saveDataEnabled
       && HeaderGet(req.header, "Save-Data") == "on"
       && Lookup(req.query, "save-data") == ["hide"])
  {
    settings.saveDataEnabled
    && HeaderGet(req.header, "Save-Data") == "on"
    && GetQueryParam(req.query, "save-data") == "hide"
  }

  /** A request that would be answered with a placeholder asks for low quality. */
  lemma HideImpliesLowQuality(settings: Settings, req: Request)
    ensures HideImage(settings, req) ==> GetQuality(settings, req) == LOW
    ensures GetQuality(settings, req) == DEFAULT ==> !HideImage(settings, req)
  {
  }

  /** A request whose Save-Data header and save-data parameter are each absent ("") or given once. */
  function SaveDataRequest(header: string, param: string): Request {
    Request("https://example.org/a.png",
            if header == "" then map[] else map["Save-Data" := [header]],
            if param == "" then map[] else map["save-data" := [param]])
  }

  /** The quality tier for the usual combinations of the setting, the header and the parameter. */
  lemma QualityExamples()
    ensures GetQuality(Settings(true, 0), SaveDataRequest("on", "")) == LOW
    ensures GetQuality(Settings(true, 0), SaveDataRequest("on", "off")) == DEFAULT
    ensures GetQuality(Settings(false, 0), SaveDataRequest("on", "")) == DEFAULT
    ensures GetQuality(Settings(true, 0), SaveDataRequest("", "")) == DEFAULT
    ensures GetQuality(Settings(true, 0), SaveDataRequest("on", "hide")) == LOW
    ensures GetQuality(Settings(true, 0),
                       Request("a.png", map["Save-Data" := ["on"]], map["save-data" := ["off", "off"]])) == LOW
  {
  }

  /** The placeholder is due only for an enabled setting, the header "on" and the parameter "hide". */
  lemma HideExamples()
    ensures HideImage(Settings(true, 0), SaveDataRequest("on", "hide"))
    ensures !HideImage(Settings(false, 0), SaveDataRequest("on", "hide"))
    ensures !HideImage(Settings(true, 0), SaveDataRequest("", "hide"))
    ensures !HideImage(Settings(true, 0), SaveDataRequest("off", "hide"))
    ensures !HideImage(Settings(true, 0), SaveDataRequest("on", ""))
    ensures !HideImage(Settings(true, 0), SaveDataRequest("on", "off"))
  {
  }

  /** The Vary header value: Save-Data is listed exactly when the hint is enabled. */
  function Vary(settings: Settings): (v: string)
    ensures HasPrefix(v, "Accept")
    ensures settings.saveDataEnabled <==> v == "Accept, Save-Data"
    ensures !settings.saveDataEnabled <==> v == "Accept"
  {
    if settings.saveDataEnabled then "Accept, Save-Data" else "Accept"
  }

  /**
   * Read back as a comma-separated list, the way the Accept header is read,
   * the Vary value names Accept, and Save-Data exactly when the hint is
   * enabled.
   */
  lemma VaryNamesFields(settings: Settings)
    ensures TrimAll(Split(Vary(settings), ',')) ==
      if settings.saveDataEnabled then ["Accept", "Save-Data"] else ["Accept"]
  {
    if settings.saveDataEnabled {
      VaryFieldsEnabled();
    } else {
      VaryFieldsDisabled();
    }
  }

  /** With the hint enabled the Vary value reads back as Accept and Save-Data. */
  lemma VaryFieldsEnabled()
    ensures TrimAll(Split("Accept, Save-Data", ',')) == ["Accept", "Save-Data"]
  {
    SplitAcceptSaveData();
    TrimAcceptPiece();
    TrimSaveDataPiece();
    var r := TrimAll(["Accept", " Save-Data"]);
    assert r[0] == TrimSpace("Accept");
    assert r[1] == TrimSpace(" Save-Data");
  }

  /** With the hint disabled the Vary value reads back as Accept alone. */
  lemma VaryFieldsDisabled()
    ensures TrimAll(Split("Accept", ',')) == ["Accept"]
  {
    SplitAccept();
    TrimAcceptPiece();
    assert TrimAll(["Accept"])[0] == TrimSpace("Accept");
  }

  /** "Accept" has no white space to trim. */
  lemma TrimAcceptPiece()
    ensures TrimSpace("Accept") == "Accept"
  {
    TrimmedWord("Accept");
  }

  /** The space after the comma is trimmed off " Save-Data". */
  lemma TrimSaveDataPiece()
    ensures TrimSpace(" Save-Data") == "Save-Data"
  {
    TrimmedAfterSpace(" Save-Data");
  }

  /** The disabled Vary value is one piece. */
  lemma SplitAccept()
    ensures Split("Accept", ',') == ["Accept"]
  {
    assert forall k :: 0 <= k < |"Accept"| ==> "Accept"[k] != ',';
  }

  /** The enabled Vary value splits into Accept and " Save-Data". */
  lemma SplitAcceptSaveData()
    ensures Split("Accept, Save-Data", ',') == ["Accept", " Save-Data"]
  {
    assert forall k :: 0 <= k < |"Accept"| ==> "Accept"[k] != ',';
    assert forall k :: 0 <= k < |" Save-Data"| ==> " Save-Data"[k] != ',';
    assert Join(["Accept", " Save-Data"], ',') == "Accept, Save-Data";
    SplitJoin(["Accept", " Save-Data"], ',');
  }

  /** A word without white space at its ends is its own trim. */
  lemma TrimmedWord(w: string)
    requires |w| > 0 && !IsSpace(w[0]) && !IsSpace(w[|w| - 1])
    ensures TrimSpace(w) == w
  {
    assert SkipSpace(w, 0) == 0;
    assert SkipSpaceBack(w, 0, |w|) == |w|;
  }

  /** One leading space is trimmed off a word. */
  lemma TrimmedAfterSpace(s: string)
    requires |s| > 1 && IsSpace(s[0]) && !IsSpace(s[1]) && !IsSpace(s[|s| - 1])
    ensures TrimSpace(s) == s[1..]
  {
    assert SkipSpace(s, 1) == 1;
    assert SkipSpace(s, 0) == 1;
    assert SkipSpaceBack(s, 1, |s|) == |s|;
  }

  // ---------------------------------------------------------------------
  // Size parameter
  // ---------------------------------------------------------------------

  /** The end of the run of digits that starts at i. */
  function SkipDigits(s: string, i: nat): (j: nat)
    requires i <= |s|
    ensures i <= j <= |s|
    ensures forall k :: i <= k < j ==> IsDigit(s[k])
    ensures j == |s| || !IsDigit(s[j])
    decreases |s| - i
  {
    if i == |s| || !IsDigit(s[i]) then i else SkipDigits(s, i + 1)
  }

  /** The run of digits starting at i ends at the first non-digit (or the end). */
  lemma SkipDigitsAt(s: string, i: nat, j: nat)
    requires i <= j <= |s|
    requires forall k :: i <= k < j ==> IsDigit(s[k])
    requires j == |s| || !IsDigit(s[j])
    ensures SkipDigits(s, i) == j
  {
  }

  /** The resize grammar `^\d*[x]?\d*$`: digits, an optional 'x', digits. */
  ghost predicate LooseSize(s: string) {
    exists w: string, h: string :: AllDigits(w) && AllDigits(h) && (s == w + h || s == w + "x" + h)
  }

  /** The fit grammar `^\d*[x]\d*$`: digits, a mandatory 'x', digits. */
  ghost predicate StrictSize(s: string) {
    exists w: string, h: string :: AllDigits(w) && AllDigits(h) && s == w + "x" + h
  }

  /** Every size the fit grammar accepts, the resize grammar accepts too. */
  lemma StrictImpliesLoose(s: string)
    ensures StrictSize(s) ==> LooseSize(s)
  {
  }

  /** The scan for a size: a run of digits, then either the end or 'x' and digits to the end. */
  function ScanSize(s: string, strict: bool): bool {
    var i := SkipDigits(s, 0);
    if i == |s| then !strict else s[i] == 'x' && SkipDigits(s, i + 1) == |s|
  }

  /**
   * The size check of the handlers (regexp.MatchString against the
   * grammar): accepts exactly the strings of the grammar.
   */
  function MatchesSize(s: string, strict: bool): (ok: bool)
    ensures ok <==> (if strict then StrictSize(s) else LooseSize(s))
  {
    MatchesSizeSound(s, strict);
    MatchesSizeComplete(s, strict);
    ScanSize(s, strict)
  }

  /** A string the scan accepts is in the grammar. */
  lemma MatchesSizeSound(s: string, strict: bool)
    ensures ScanSize(s, strict) ==> (if strict then StrictSize(s) else LooseSize(s))
  {
    var i := SkipDigits(s, 0);
    if i == |s| {
      assert AllDigits(s) && s == s + "";
    } else if ScanSize(s, strict) {
      var j := SkipDigits(s, i + 1);
      assert s[i] == 'x' && j == |s|;
      var w, h := s[..i], s[i + 1..];
      assert AllDigits(w) by { assert forall k :: 0 <= k < |w| ==> w[k] == s[k]; }
      assert AllDigits(h) by { assert forall k :: 0 <= k < |h| ==> h[k] == s[i + 1 + k]; }
      assert s == w + "x" + h;
    }
  }

  /** A string in the grammar is accepted by the scan. */
  lemma MatchesSizeComplete(s: string, strict: bool)
    ensures (if strict then StrictSize(s) else LooseSize(s)) ==> ScanSize(s, strict)
  {
    if (if strict then StrictSize(s) else LooseSize(s)) {
      var w: string, h: string :| AllDigits(w) && AllDigits(h) && (s == w + "x" + h || (!strict && s == w + h));
      if s == w + "x" + h {
        ScanAcceptsWidthXHeight(w, h, strict);
      } else {
        ScanAcceptsDigits(w + h);
      }
    }
  }

  /** Both grammars accept digits, 'x', digits. */
  lemma ScanAcceptsWidthXHeight(w: string, h: string, strict: bool)
    requires AllDigits(w) && AllDigits(h)
    ensures ScanSize(w + "x" + h, strict)
  {
    var s := w + "x" + h;
    assert forall k :: 0 <= k < |w| ==> s[k] == w[k];
    assert s[|w|] == 'x';
    assert forall k :: |w| + 1 <= k < |s| ==> s[k] == h[k - |w| - 1];
    SkipDigitsAt(s, 0, |w|);
    SkipDigitsAt(s, |w| + 1, |s|);
  }

  /** The resize grammar accepts a run of digits. */
  lemma ScanAcceptsDigits(d: string)
    requires AllDigits(d)
    ensures ScanSize(d, false)
  {
    SkipDigitsAt(d, 0, |d|);
  }

  /** Outcome of the size checks in ResizeUrl and FitToSizeUrl. */
  datatype SizeCheck = SizeMissing | SizeMalformed | SizeAccepted(size: string)

  /**
   * The size checks: a missing or repeated size parameter is refused first,
   * then one outside the grammar (loose for resize, strict for fit).
   */
  function CheckSize(query: Values, strict: bool): (c: SizeCheck)
    ensures c == SizeMissing <==> GetQueryParam(query, "size") == ""
    ensures c.SizeAccepted? <==>
      GetQueryParam(query, "size") != ""
      && (if strict then StrictSize(GetQueryParam(query, "size")) else LooseSize(GetQueryParam(query, "size")))
    ensures c.SizeAccepted? ==> Lookup(query, "size") == [c.size]
  {
    var size := GetQueryParam(query, "size");
    if |size| == 0 then SizeMissing
    else if !MatchesSize(size, strict) then SizeMalformed
    else SizeAccepted(size)
  }

  /** A query carrying one size parameter with value v. */
  function SizeQuery(v: string): Values {
    map["size" := [v]]
  }

  /** Widths alone, heights alone and both pass the resize check. */
  lemma ResizeSizeExamples()
    ensures CheckSize(SizeQuery("50"), false) == SizeAccepted("50")
    ensures CheckSize(SizeQuery("x50"), false) == SizeAccepted("x50")
    ensures CheckSize(SizeQuery("50x50"), false) == SizeAccepted("50x50")
    ensures CheckSize(SizeQuery("x"), false) == SizeAccepted("x")
  {
    assert SkipDigits("x", 0) == 0 by { SkipDigitsAt("x", 0, 0); }
    assert SkipDigits("50", 0) == 2 by { SkipDigitsAt("50", 0, 2); }
    assert SkipDigits("x50", 0) == 0 by { SkipDigitsAt("x50", 0, 0); }
    assert SkipDigits("x50", 1) == 3 by { SkipDigitsAt("x50", 1, 3); }
    assert SkipDigits("50x50", 0) == 2 by { SkipDigitsAt("50x50", 0, 2); }
    assert SkipDigits("50x50", 3) == 5 by { SkipDigitsAt("50x50", 3, 5); }
  }

  /** The fit check needs the 'x': a width alone passes resize but fails fit. */
  lemma FitSizeExamples()
    ensures CheckSize(SizeQuery("50x50"), true) == SizeAccepted("50x50")
    ensures CheckSize(SizeQuery("50"), true) == SizeMalformed
    ensures CheckSize(SizeQuery("x"), true) == SizeAccepted("x")
  {
    assert SkipDigits("x", 0) == 0 by { SkipDigitsAt("x", 0, 0); }
    assert SkipDigits("50", 0) == 2 by { SkipDigitsAt("50", 0, 2); }
    assert SkipDigits("50x50", 0) == 2 by { SkipDigitsAt("50x50", 0, 2); }
    assert SkipDigits("50x50", 3) == 5 by { SkipDigitsAt("50x50", 3, 5); }
  }

  /** A letter other than the separator is malformed; an empty size is missing. */
  lemma RejectedSizeExamples()
    ensures CheckSize(SizeQuery("abcx"), false) == SizeMalformed
    ensures CheckSize(SizeQuery("abcx"), true) == SizeMalformed
    ensures CheckSize(SizeQuery(""), false) == SizeMissing
    ensures CheckSize(map[], true) == SizeMissing
  {
    assert SkipDigits("abcx", 0) == 0 by { SkipDigitsAt("abcx", 0, 0); }
  }

  // ---------------------------------------------------------------------
  // Response headers
  // ---------------------------------------------------------------------

  /** The Cache-Control value: public, with max-age (section 5.2.2.1 of RFC 9111) set to the TTL. */
  function CacheControl(ttl: int): string {
    "public, max-age=" + FormatInt(ttl)
  }

  /** A non-negative TTL is written as delta-seconds that read back as the TTL. */
  lemma MaxAgeRoundTrip(ttl: nat)
    ensures var v := CacheControl(ttl);
      && HasPrefix(v, "public, max-age=")
      && |v| > 16 && AllDigits(v[16..]) && ParseDecimal(v[16..]) == ttl
      && (|v| > 17 ==> v[16] != '0')
  {
    assert CacheControl(ttl)[16..] == Itoa(ttl);
    ItoaRoundTrip(ttl);
  }

  /**
   * addHeaders: Content-Type only for a known MIME type, Content-Length as
   * the decimal length of the data, and Cache-Control.
   */
  function AddHeaders(image: Image, ttl: int): (hs: seq<HeaderField>)
    ensures |hs| == (if image.mimeType == "" then 2 else 3)
    ensures image.mimeType != "" ==> hs[0] == HeaderField("Content-Type", image.mimeType)
    ensures forall k :: 0 <= k < |hs| ==> (hs[k].name == "Content-Type" <==> image.mimeType != "" && k == 0)
    ensures hs[|hs| - 2].name == "Content-Length"
      && AllDigits(hs[|hs| - 2].value) && ParseDecimal(hs[|hs| - 2].value) == |image.data|
    ensures |hs[|hs| - 2].value| > 1 ==> hs[|hs| - 2].value[0] != '0'
    ensures hs[|hs| - 1] == HeaderField("Cache-Control", CacheControl(ttl))
  {
    ItoaRoundTrip(|image.data|);
    (if |image.mimeType| != 0 then [HeaderField("Content-Type", image.mimeType)] else [])
    + [HeaderField("Content-Length", Itoa(|image.data|)),
       HeaderField("Cache-Control", CacheControl(ttl))]
  }
}
