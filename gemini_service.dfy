/** The post-processing of the detector's reply (services/geminiService.ts):
    the missing-key guard, the markdown fence strip, and the defensive mapping
    of the parsed reply into `DrawingError` records. The request itself is a
    `Reply` handed in, and `JSON.parse` is a function handed in that yields
    None on a syntax error. */
module GeminiService {
  import opened JsRuntime
  import opened Types

  /** Why a call to the detector rejects. */
  datatype ScanFailure =
    | MissingApiKey   // thrown before any request is made
    | RequestFailed   // the network call itself rejected
    | SyntaxError     // JSON.parse threw, and the error is rethrown
    | TypeError       // an entry of `errors` was null, so reading its `id` threw

  datatype Outcome<T> = Success(value: T) | Failure(error: ScanFailure)

  /** What the model service answered: the reply's text (absent or present),
      or a rejected request. */
  datatype Reply = Answered(text: Option<string>) | Rejected

  const UnknownEn: string := "Unknown error"
  const UnknownVn: string := "Lỗi không xác định"
  const DefaultKind: string := "warning"
  const FenceOpen: string := "```json"
  const Fence: string := "```"

  /** `process.env.API_KEY` is truthy. */
  predicate HasApiKey(apiKey: Option<string>) {
    apiKey.Some? && apiKey.value != ""
  }

  /** The guard is JavaScript truthiness of the environment variable, which is
      undefined when unset. */
  lemma ApiKeyIsTruthy(apiKey: Option<string>)
    ensures HasApiKey(apiKey) <==> Truthy(if apiKey.None? then Undefined else Str(apiKey.value))
  {
  }

  /** `text.replace(/^```json\s*\/, "").replace(/```$/, "").trim()`. */
  function CleanText(text: string): (r: string)
    ensures !StartsWith(text, FenceOpen) && !EndsWith(text, Fence) ==> r == Trim(text)
  {
    Trim(StripClose(StripOpen(text)))
  }

  /** The first replacement: an opening "```json" and the whitespace after it. */
  function StripOpen(text: string): (r: string)
    ensures !StartsWith(text, FenceOpen) ==> r == text
    ensures StartsWith(text, FenceOpen) ==> |r| <= |text| - |FenceOpen| && r == text[|text| - |r|..]
    ensures StartsWith(text, FenceOpen) ==> AllSpace(text[|FenceOpen|..|text| - |r|])
    ensures StartsWith(text, FenceOpen) ==> r == [] || !IsSpace(r[0])
  {
    if StartsWith(text, FenceOpen) then
      var rest := text[|FenceOpen|..];
      var r := TrimStart(rest);
      assert text[|FenceOpen|..|text| - |r|] == rest[..|rest| - |r|];
      assert text[|text| - |r|..] == rest[|rest| - |r|..];
      r
    else text
  }

  /** The second replacement: a closing "```" at the very end. */
  function StripClose(text: string): (r: string)
    ensures EndsWith(text, Fence) ==> text == r + Fence
    ensures !EndsWith(text, Fence) ==> r == text
  {
    if EndsWith(text, Fence) then text[..|text| - |Fence|] else text
  }

  /** A fenced reply "```json", whitespace, the body, whitespace, "```" cleans
      to the trimmed body. */
  lemma FencedReplyCleans(ws1: string, body: string, ws2: string)
    requires AllSpace(ws1) && AllSpace(ws2)
    ensures CleanText(FenceOpen + ws1 + body + ws2 + Fence) == Trim(body)
  {
    var text := FenceOpen + ws1 + body + ws2 + Fence;
    var lead := TrimStart(body + ws2);
    assert text == FenceOpen + ws1 + (body + ws2) + Fence;
    calc {
      CleanText(text);
      Trim(StripClose(StripOpen(text)));
      { OpenFenceStripped(ws1, body + ws2); }
      Trim(StripClose(lead + Fence));
      { StripCloseFenced(lead); }
      Trim(lead);
      { TrimAppendSpaces(body, ws2); }
      Trim(body);
    }
  }

  /** The opening replacement removes the "```json" and all whitespace after
      it, leaving the closing fence in place. */
  lemma OpenFenceStripped(ws: string, s: string)
    requires AllSpace(ws)
    ensures StripOpen(FenceOpen + ws + s + Fence) == TrimStart(s) + Fence
  {
    var rest := s + Fence;
    assert FenceOpen + ws + s + Fence == FenceOpen + (ws + rest);
    calc {
      StripOpen(FenceOpen + (ws + rest));
      { StripOpenFenced(ws + rest); }
      TrimStart(ws + rest);
      { TrimStartAbsorbs(ws, rest); }
      TrimStart(rest);
      { TrimStartKeepsFence(s); }
      TrimStart(s) + Fence;
    }
  }

  lemma TrimStartKeepsFence(s: string)
    ensures TrimStart(s + Fence) == TrimStart(s) + Fence
  {
    TrimStartAppend(s, Fence);
    if TrimStart(s) == [] {
      FenceHasNoLeadingSpace();
      assert [] + Fence == Fence;
    }
  }

  lemma FenceHasNoLeadingSpace()
    ensures TrimStart(Fence) == Fence
  {
  }

  lemma StripOpenFenced(rest: string)
    ensures StripOpen(FenceOpen + rest) == TrimStart(rest)
  {
    assert (FenceOpen + rest)[..|FenceOpen|] == FenceOpen;
    assert (FenceOpen + rest)[|FenceOpen|..] == rest;
  }

  lemma StripCloseFenced(s: string)
    ensures StripClose(s + Fence) == s
  {
    assert (s + Fence)[|s + Fence| - |Fence|..] == Fence;
    assert (s + Fence)[..|s + Fence| - |Fence|] == s;
  }

  /** Stripping the leading whitespace of `s + t` strips that of `s`, and
      goes on into `t` only when `s` is all whitespace. */
  lemma {:induction false} TrimStartAppend(s: string, t: string)
    ensures TrimStart(s) != [] ==> TrimStart(s + t) == TrimStart(s) + t
    ensures TrimStart(s) == [] ==> TrimStart(s + t) == TrimStart(t)
    decreases |s|
  {
    if s == [] {
      assert s + t == t;
    } else if IsSpace(s[0]) {
      assert (s + t)[1..] == s[1..] + t;
      TrimStartAppend(s[1..], t);
    } else {
      assert (s + t)[0] == s[0];
    }
  }

  /** Trailing whitespace after the body makes no difference to the trim. */
  lemma TrimAppendSpaces(body: string, ws: string)
    requires AllSpace(ws)
    ensures Trim(TrimStart(body + ws)) == Trim(body)
  {
    TrimStartAppend(body, ws);
    var lead := TrimStart(body);
    if lead == [] {
      TrimStartAbsorbs(ws, []);
      assert ws + [] == ws;
    } else {
      TrimStartAppend(lead, ws);
      TrimEndAbsorbs(lead, ws);
    }
  }

  /** `Array.isArray(e.box_2d) && e.box_2d.length === 4 ? {…} : null`. */
  function BoxOf(raw: Value): (r: Option<BoundingBox>)
    ensures r.Some? <==> raw.Arr? && |raw.items| == 4
    ensures r.Some? ==> r.value == BoundingBox(ToNumber(raw.items[0]), ToNumber(raw.items[1]),
                                                ToNumber(raw.items[2]), ToNumber(raw.items[3]))
  {
    if raw.Arr? && |raw.items| == 4 then
      Some(BoundingBox(ToNumber(raw.items[0]), ToNumber(raw.items[1]),
                       ToNumber(raw.items[2]), ToNumber(raw.items[3])))
    else None
  }

  /** `v || fallback`. */
  function OrDefault(v: Value, fallback: string): (r: Value)
    ensures Truthy(v) ==> r == v
    ensures !Truthy(v) ==> r == Str(fallback)
  {
    if Truthy(v) then v else Str(fallback)
  }

  /** Reading a field of an entry known to be neither null nor undefined. */
  function Field(e: Value, key: string): Value
    requires !e.Null? && !e.Undefined?
  {
    Property(e, key).value
  }

  /** The mapping applied to one entry of `errors`; None when reading its
      properties throws (the entry is null). */
  function NormaliseEntry(e: Value): (r: Option<DrawingError>)
    ensures r.None? <==> e.Null? || e.Undefined?
    ensures r.Some? ==> r.value.id == Field(e, "id")
    ensures r.Some? ==> r.value.box == BoxOf(Field(e, "box_2d"))
    ensures r.Some? ==> r.value.descriptionEn == OrDefault(Field(e, "description_en"), UnknownEn)
    ensures r.Some? ==> r.value.descriptionVn == OrDefault(Field(e, "description_vn"), UnknownVn)
    ensures r.Some? ==> r.value.kind == OrDefault(Field(e, "type"), DefaultKind)
  {
    if e.Null? || e.Undefined? then None
    else Some(DrawingError(
      id := Field(e, "id"),
      descriptionEn := OrDefault(Field(e, "description_en"), UnknownEn),
      descriptionVn := OrDefault(Field(e, "description_vn"), UnknownVn),
      box := BoxOf(Field(e, "box_2d")),
      kind := OrDefault(Field(e, "type"), DefaultKind)))
  }

  /** `errors.map(...)`: one record per entry, in order; the first entry whose
      mapping throws makes the whole map throw. */
  function NormaliseAll(xs: seq<Value>): (r: Outcome<seq<DrawingError>>)
    ensures r.Failure? <==> exists i :: 0 <= i < |xs| && NormaliseEntry(xs[i]).None?
    ensures r.Failure? ==> r.error == TypeError
    ensures r.Success? ==> |r.value| == |xs|
    ensures r.Success? ==> forall i :: 0 <= i < |xs| ==> Some(r.value[i]) == NormaliseEntry(xs[i])
  {
    if xs == [] then Success([])
    else match NormaliseEntry(xs[0])
      case None => Failure(TypeError)
      case Some(d) =>
        match NormaliseAll(xs[1..])
        case Failure(err) => Failure(err)
        case Success(ds) => Success([d] + ds)
  }

  /** The guard `result && Array.isArray(result.errors)` and the map. */
  function Normalise(result: Value): (r: Outcome<seq<DrawingError>>)
    ensures !Truthy(result) ==> r == Success([])
    ensures Truthy(result) && !Field(result, "errors").Arr? ==> r == Success([])
    ensures Truthy(result) && Field(result, "errors").Arr? ==> r == NormaliseAll(Field(result, "errors").items)
  {
    if Truthy(result) && Field(result, "errors").Arr? then NormaliseAll(Field(result, "errors").items)
    else Success([])
  }

  /** `analyzeDrawing`: the processing of one request, given what the service
      answers and what `JSON.parse` yields. */
  function AnalyzeDrawing(apiKey: Option<string>, reply: Reply, parse: string -> Option<Value>)
    : (r: Outcome<seq<DrawingError>>)
    ensures !HasApiKey(apiKey) ==> r == Failure(MissingApiKey)
    ensures HasApiKey(apiKey) && reply.Rejected? ==> r == Failure(RequestFailed)
    ensures HasApiKey(apiKey) && reply.Answered? && (reply.text.None? || reply.text.value == "")
            ==> r == Success([])
    ensures HasApiKey(apiKey) && reply.Answered? && reply.text.Some? && reply.text.value != ""
            ==> r == match parse(CleanText(reply.text.value))
                     case None => Failure(SyntaxError)
                     case Some(v) => Normalise(v)
  {
    if !HasApiKey(apiKey) then Failure(MissingApiKey)
    else match reply
      case Rejected => Failure(RequestFailed)
      case Answered(text) =>
        if text.None? || text.value == "" then Success([])
        else match parse(CleanText(text.value))
          case None => Failure(SyntaxError)
          case Some(v) => Normalise(v)
  }

  /** A missing key fails the same way whatever the service would have said:
      no request is made. */
  lemma MissingKeyIgnoresService(apiKey: Option<string>, a: Reply, b: Reply, p: string -> Option<Value>)
    requires !HasApiKey(apiKey)
    ensures AnalyzeDrawing(apiKey, a, p) == AnalyzeDrawing(apiKey, b, p) == Failure(MissingApiKey)
  {
  }

  /** A parsed reply without an array-valued `errors` field yields no defects;
      a reply with one yields exactly one record per entry, in order, unless
      an entry is null. */
  lemma {:induction false} NormalisePreservesOrder(xs: seq<Value>, i: nat)
    requires forall k :: 0 <= k < |xs| ==> !xs[k].Null? && !xs[k].Undefined?
    requires i < |xs|
    ensures Normalise(Obj(map["errors" := Arr(xs)])).Success?
    ensures var ds := Normalise(Obj(map["errors" := Arr(xs)])).value;
            |ds| == |xs| && ds[i].id == Field(xs[i], "id")
  {
    var r := NormaliseAll(xs);
    assert Field(Obj(map["errors" := Arr(xs)]), "errors") == Arr(xs);
    assert forall k :: 0 <= k < |xs| ==> NormaliseEntry(xs[k]).Some?;
    assert Some(r.value[i]) == NormaliseEntry(xs[i]);
  }

  /** The example reply from the detector's output instruction. */
  lemma ExampleReply()
    ensures var entry := Obj(map[
              "id" := Num(1.0),
              "description_en" := Str("Missing DN tag"),
              "description_vn" := Str("Thiếu tag DN"),
              "type" := Str("warning"),
              "box_2d" := Arr([Num(450.0), Num(200.0), Num(480.0), Num(250.0)])]);
            Normalise(Obj(map["errors" := Arr([entry])]))
            == Success([DrawingError(Num(1.0), Str("Missing DN tag"), Str("Thiếu tag DN"),
                          Some(BoundingBox(Finite(450.0), Finite(200.0), Finite(480.0), Finite(250.0))),
                          Str("warning"))])
  {
    var entry := Obj(map[
              "id" := Num(1.0),
              "description_en" := Str("Missing DN tag"),
              "description_vn" := Str("Thiếu tag DN"),
              "type" := Str("warning"),
              "box_2d" := Arr([Num(450.0), Num(200.0), Num(480.0), Num(250.0)])]);
    var d := NormaliseEntry(entry);
    assert d.Some?;
    var all := NormaliseAll([entry]);
    assert all.Success?;
    assert all.value == [d.value];
  }

  /** A `box_2d` of three entries leaves the defect without a location and
      is not an error; a missing one likewise. An entry with no fields at all
      gets both default descriptions, the default kind and an absent id. */
  lemma MalformedEntryDegrades(a: Value, b: Value, c: Value)
    ensures var d := NormaliseEntry(Obj(map["box_2d" := Arr([a, b, c])]));
            d.Some? && d.value.box.None?
    ensures NormaliseEntry(Obj(map[])) ==
            Some(DrawingError(Undefined, Str(UnknownEn), Str(UnknownVn), None, Str(DefaultKind)))
  {
  }

  /** Any non-empty kind is passed through unchecked, so a kind the declared
      type does not admit reaches the record as it came. */
  lemma KindIsNotValidated(k: string)
    requires k != ""
    ensures var d := NormaliseEntry(Obj(map["type" := Str(k)]));
            && d.Some? && d.value.kind == Str(k)
            && (!DeclaredKind(Str(k)) ==> !DeclaredKind(d.value.kind))
    ensures !DeclaredKind(NormaliseEntry(Obj(map["type" := Str("fatal")])).value.kind)
  {
    assert NormaliseEntry(Obj(map["type" := Str("fatal")])).value.kind == Str("fatal");
  }
}
