/**
 * One scraped decision record turned into the fixed-schema record: the
 * per-record part of `process_faisalas`. The record is a JSON object read
 * from disk; every field of the schema is either taken from the text of
 * `Title`, `Post Meta` or `Faisala Detail` or set to its default, "NA" for
 * a text field and `[]` for a list field. The compiled patterns are
 * parameters (`Patterns`); the judge block, the field extractor, the two
 * cleaners and the implicit-law extractor are the modules beside this one.
 */
module Records {
  import opened Optional
  import opened Text
  import opened Cleaners
  import opened FieldExtractor
  import opened ImplicitLaw
  import opened UniqueIds
  import opened JudgeBlocks

  /** A JSON value as `json.load` builds it (numbers as integers). */
  datatype Json =
    | JNull
    | JBool(b: bool)
    | JNum(n: int)
    | JStr(s: string)
    | JList(items: seq<Json>)
    | JObject(fields: map<string, Json>)

  /** Python's truth value of a loaded JSON value. */
  predicate Truthy(v: Json)
  {
    match v
    case JNull => false
    case JBool(b) => b
    case JNum(n) => n != 0
    case JStr(s) => s != ""
    case JList(items) => items != []
    case JObject(fields) => fields != map[]
  }

  /** A list of strings as a JSON list. */
  function JStrings(xs: seq<string>): (r: seq<Json>)
    ensures |r| == |xs| && forall i :: 0 <= i < |xs| ==> r[i] == JStr(xs[i])
  {
    seq(|xs|, i requires 0 <= i < |xs| => JStr(xs[i]))
  }

  /** `data.get(key)` */
  function Get(data: map<string, Json>, key: string): Json
  {
    if key in data then data[key] else JNull
  }

  /** The compiled patterns of lines 8-67 that are not modelled concretely. */
  datatype Patterns = Patterns(
    faisalaMiti: string -> FindResult,         // faisala_miti_pattern.findall
    judges: string -> FindResult,              // judges_pattern.findall
    metadataBlockAt: (string, nat) -> bool,    // the metadata block of current_decision_metadata_block_pattern, at a position
    pakshya: string -> FindResult,             // pakshya_pattern.findall
    bipakshya: string -> FindResult,           // bipakshya_pattern.findall
    pakshyaAdhibakta: string -> FindResult,    // pakshya_adhibakta_pattern.findall
    bipakshyaAdhibakta: string -> FindResult,  // bipakshya_adhibakta_pattern.findall
    abalambitNajir: string -> FindResult,      // abalambit_najir_pattern.findall
    sambaddhaKanoon: string -> FindResult,     // sambaddha_kanoon_pattern.findall
    ullikhitNajir: string -> seq<string>,      // group(0) of ullikhit_najir_pattern.finditer
    preciseKanoon: string -> seq<string>)      // group(0) of precise_kanoon_pattern_for_sentence.finditer

  // ----- the schema -----

  /** The eleven fields of the output schema. */
  datatype OutputField =
    | UniqueIdField | FaisalaMitiField | JudgesField | PakshyaField | BipakshyaField
    | PakshyaAdhibaktaField | BipakshyaAdhibaktaField | AbalambitNajirField
    | SambaddhaKanoonField | UllikhitNajirField | UllikhitKanoonField

  /** The JSON key of each field. */
  function KeyName(f: OutputField): string
  {
    match f
    case UniqueIdField => "uniqueId"
    case FaisalaMitiField => "faisala_miti"
    case JudgesField => "judges"
    case PakshyaField => "pakshya"
    case BipakshyaField => "bipakshya"
    case PakshyaAdhibaktaField => "pakshya_adhibakta"
    case BipakshyaAdhibaktaField => "bipakshya_adhibakta"
    case AbalambitNajirField => "abalambit_najir_explicit"
    case SambaddhaKanoonField => "sambaddha_kanoon_explicit"
    case UllikhitNajirField => "ullikhit_najir_implicit"
    case UllikhitKanoonField => "ullikhit_kanoon_implicit"
  }

  predicate IsListField(f: OutputField)
  {
    f.JudgesField? || f.UllikhitNajirField? || f.UllikhitKanoonField?
  }

  /** The fields filled from the body, `Faisala Detail`. */
  predicate FromBody(f: OutputField)
  {
    !f.UniqueIdField? && !f.FaisalaMitiField?
  }

  /** The default of a field, lines 194-200: DEFAULT_STRING or a fresh DEFAULT_LIST. */
  function Default(f: OutputField): Json
  {
    if IsListField(f) then JList([]) else JStr(Sentinel)
  }

  const AllFields: set<OutputField> := {
    UniqueIdField, FaisalaMitiField, JudgesField, PakshyaField, BipakshyaField,
    PakshyaAdhibaktaField, BipakshyaAdhibaktaField, AbalambitNajirField,
    SambaddhaKanoonField, UllikhitNajirField, UllikhitKanoonField }

  /** `output_payload_with_defaults` before the merge. */
  const Defaults: map<OutputField, Json> := map f | f in AllFields :: Default(f)

  /** The keys the schema writes. */
  const OutputKeys: set<string> := set f | f in AllFields :: KeyName(f)

  /** The body key of the input, and the key it is renamed to. */
  const DetailKey: string := "Faisala Detail"
  const RawTextKey: string := "Faisala_Detail_raw_text"

  // ----- the fields -----

  /** Line 158: `extract_with_regex(faisala_miti_pattern, post_meta, clean_func=clean_singleline_text)`.
      A `Post Meta` that is neither null nor a string makes `findall` raise,
      and the exception yields the default. */
  function FaisalaMitiValue(pats: Patterns, postMeta: Json): string
  {
    match postMeta
    case JNull => ExtractWithRegex(pats.faisalaMiti, None, false, 1, SingleLineCleaner, Sentinel, None).value
    case JStr(s) => ExtractWithRegex(pats.faisalaMiti, Some(s), false, 1, SingleLineCleaner, Sentinel, None).value
    case _ => Sentinel
  }

  /** Line 178: the judges, taken from the judge block only; `cut` says
      which primary branch of the locator the block comes from. */
  function JudgesValue(pats: Patterns, cut: Cut, body: string): seq<string>
  {
    ExtractWithRegex(pats.judges, Some(JudgeBlockFor(cut, pats.metadataBlockAt, body)), true, 1, SingleLineCleaner, Sentinel, None).values
  }

  /** Lines 179-184: a text field taken from the whole body and cleaned as a block. */
  function BodyValue(pattern: string -> FindResult, body: string): string
  {
    ExtractWithRegex(pattern, Some(body), false, 1, MultiLineCleaner, Sentinel, None).value
  }

  /** `[m.strip() for m in matches if m]` over `match.group(0)`, line 187. */
  function StrippedMatches(matches: seq<string>): seq<string>
  {
    if matches == [] then []
    else (if matches[0] != "" then [Strip(matches[0])] else []) + StrippedMatches(matches[1..])
  }

  /** Line 188: `list(set(clean_singleline_text(n) for n in ... if clean_singleline_text(n)))`. */
  function ImplicitPrecedents(matches: seq<string>): seq<string>
  {
    Dedup(CleanEach(SingleLineCleaner, StrippedMatches(matches)))
  }

  /** `v` is a list that `list(set(xs))` may return: without duplicates,
      holding exactly the elements of `xs`, in an unspecified order. */
  ghost predicate ListOf(v: Json, xs: seq<string>)
  {
    && v.JList?
    && exists c: seq<string> {:trigger JStrings(c)} ::
         v.items == JStrings(c) && NoDups(c) && Elems(c) == Elems(xs)
  }

  /** Whether lines 155-191 put field `f` into `current_extracted_values`. */
  predicate IsExtracted(title: Json, detail: Json, f: OutputField)
  {
    match f
    case UniqueIdField => Truthy(title) && title.JStr? && UniqueIdMatch(title.s).Some?
    case FaisalaMitiField => true
    case _ => Truthy(detail) && detail.JStr?
  }

  /** What line 157 puts under `uniqueId`: the rewritten decision number. */
  ghost predicate UniqueIdHolds(title: Json, v: Json)
  {
    title.JStr? && UniqueIdMatch(title.s).Some? && v == JStr(UniqueId(UniqueIdMatch(title.s).value))
  }

  /** What line 158 puts under `faisala_miti`. */
  ghost predicate FaisalaMitiHolds(pats: Patterns, postMeta: Json, v: Json)
  {
    v == JStr(FaisalaMitiValue(pats, postMeta))
  }

  /** The text fields of the body, lines 179-184, each with its own pattern. */
  predicate IsTextField(f: OutputField)
  {
    FromBody(f) && !IsListField(f)
  }

  function TextPattern(pats: Patterns, f: OutputField): string -> FindResult
    requires IsTextField(f)
  {
    match f
    case PakshyaField => pats.pakshya
    case BipakshyaField => pats.bipakshya
    case PakshyaAdhibaktaField => pats.pakshyaAdhibakta
    case BipakshyaAdhibaktaField => pats.bipakshyaAdhibakta
    case AbalambitNajirField => pats.abalambitNajir
    case SambaddhaKanoonField => pats.sambaddhaKanoon
  }

  /** What lines 178-191 put under a body field `f`, for the body `body`. */
  ghost predicate BodyFieldHolds(pats: Patterns, cut: Cut, body: string, f: OutputField, v: Json)
    requires FromBody(f)
  {
    if f.JudgesField? then ListOf(v, JudgesValue(pats, cut, body))
    else if f.UllikhitNajirField? then ListOf(v, ImplicitPrecedents(pats.ullikhitNajir(body)))
    else if f.UllikhitKanoonField? then ListOf(v, Candidates(pats.preciseKanoon, SplitOn(body, SentenceBreaks)))
    else v == JStr(BodyValue(TextPattern(pats, f), body))
  }

  /** What a record's field `f` holds, given its `Title`, `Post Meta` and
      `Faisala Detail`: the default when the field is not extracted, and the
      extracted value otherwise. */
  ghost predicate FieldHolds(pats: Patterns, cut: Cut, title: Json, postMeta: Json, detail: Json, f: OutputField, v: Json)
  {
    if !IsExtracted(title, detail, f) then v == Default(f)
    else if f.UniqueIdField? then UniqueIdHolds(title, v)
    else if f.FaisalaMitiField? then FaisalaMitiHolds(pats, postMeta, v)
    else detail.JStr? && BodyFieldHolds(pats, cut, detail.s, f, v)
  }

  /** A value the merge rule leaves as it is: it overrides, or it equals the
      default of its field. */
  predicate Settled(f: OutputField, v: Json)
  {
    if IsListField(f) then v.JList? else v.JStr? && (Overrides(v) || v == JStr(Sentinel))
  }

  // ----- lines 153-191 -----

  /** Lines 155-157: the decision number, when the title has one. */
  method DecisionNumber(title: Json) returns (id: Option<Json>)
    requires title.JStr? || !Truthy(title)
    ensures id.Some? <==> Truthy(title) && UniqueIdMatch(title.s).Some?
    ensures id.Some? ==> Settled(UniqueIdField, id.value) && UniqueIdHolds(title, id.value)
  {
    id := None;
    if Truthy(title) {
      var m := UniqueIdMatch(title.s);
      if m.Some? {
        id := Some(JStr(UniqueId(m.value)));
        UniqueIdSettled(title.s);
      }
    }
  }

  /** Line 158: the decision date. */
  method DecisionDate(pats: Patterns, postMeta: Json) returns (v: Json)
    ensures Settled(FaisalaMitiField, v) && FaisalaMitiHolds(pats, postMeta, v)
  {
    v := JStr(FaisalaMitiValue(pats, postMeta));
    FaisalaMitiSettled(pats, postMeta);
  }

  /** Lines 160-191: one field taken from a non-empty body. */
  method BodyField(pats: Patterns, cut: Cut, body: string, f: OutputField) returns (v: Json)
    requires body != "" && FromBody(f)
    ensures Settled(f, v) && BodyFieldHolds(pats, cut, body, f, v)
  {
    if f.JudgesField? {
      var block;
      if cut.AsWritten? {
        block := LocateJudgeBlockAsWritten(pats.metadataBlockAt, body);
      } else {
        block := LocateJudgeBlock(pats.metadataBlockAt, body);
      }
      var judges := ExtractWithRegex(pats.judges, Some(block), true, 1, SingleLineCleaner, Sentinel, None).values;
      assert NoDups(judges);
      v := JList(JStrings(judges));
    } else if f.UllikhitNajirField? {
      var najir := ImplicitPrecedents(pats.ullikhitNajir(body));
      v := JList(JStrings(najir));
    } else if f.UllikhitKanoonField? {
      var kanoon := ExtractImplicitKanoon(pats.preciseKanoon, Some(body));
      v := JList(JStrings(kanoon));
    } else {
      v := JStr(ExtractWithRegex(TextPattern(pats, f), Some(body), false, 1, MultiLineCleaner, Sentinel, None).value);
      BodyValueSettled(TextPattern(pats, f), body);
    }
  }

  /** Lines 160-191: the nine fields taken from a non-empty body. */
  method ExtractBodyFields(pats: Patterns, cut: Cut, body: string) returns (fields: map<OutputField, Json>)
    requires body != ""
    ensures forall f :: f in fields <==> FromBody(f)
    ensures forall f :: f in fields ==> Settled(f, fields[f]) && BodyFieldHolds(pats, cut, body, f, fields[f])
  {
    // Filling the map needs the values only, not how they are computed.
    hide BodyFieldHolds, Settled;
    var judges := BodyField(pats, cut, body, JudgesField);
    var pakshya := BodyField(pats, cut, body, PakshyaField);
    var bipakshya := BodyField(pats, cut, body, BipakshyaField);
    var pakshyaAdhibakta := BodyField(pats, cut, body, PakshyaAdhibaktaField);
    var bipakshyaAdhibakta := BodyField(pats, cut, body, BipakshyaAdhibaktaField);
    var abalambitNajir := BodyField(pats, cut, body, AbalambitNajirField);
    var sambaddhaKanoon := BodyField(pats, cut, body, SambaddhaKanoonField);
    var najir := BodyField(pats, cut, body, UllikhitNajirField);
    var kanoon := BodyField(pats, cut, body, UllikhitKanoonField);
    fields := map[
      JudgesField := judges,
      PakshyaField := pakshya,
      BipakshyaField := bipakshya,
      PakshyaAdhibaktaField := pakshyaAdhibakta,
      BipakshyaAdhibaktaField := bipakshyaAdhibakta,
      AbalambitNajirField := abalambitNajir,
      SambaddhaKanoonField := sambaddhaKanoon,
      UllikhitNajirField := najir,
      UllikhitKanoonField := kanoon];
  }

  /** `current_extracted_values` after lines 153-191. */
  method ExtractFields(pats: Patterns, cut: Cut, title: Json, postMeta: Json, detail: Json) returns (extracted: map<OutputField, Json>)
    requires title.JStr? || !Truthy(title)
    requires detail.JStr? || !Truthy(detail)
    ensures forall f :: f in extracted <==> IsExtracted(title, detail, f)
    ensures forall f :: f in extracted ==>
              Settled(f, extracted[f]) && FieldHolds(pats, cut, title, postMeta, detail, f, extracted[f])
  {
    hide UniqueIdHolds, FaisalaMitiHolds, BodyFieldHolds, Settled, UniqueIdMatch;
    extracted := map[];
    var id := DecisionNumber(title);
    if id.Some? {
      extracted := extracted[UniqueIdField := id.value];
    }
    var date := DecisionDate(pats, postMeta);
    extracted := extracted[FaisalaMitiField := date];
    if Truthy(detail) {
      var fields := ExtractBodyFields(pats, cut, detail.s);
      extracted := extracted + fields;
    }
  }

  // ----- lines 194-207 -----

  /** The merge rule of lines 202-207: a list overrides its default only when
      it is non-empty, a string only when it is neither blank nor "NA", None
      never, and any other value always. */
  predicate Overrides(v: Json)
  {
    match v
    case JList(items) => items != []
    case JStr(s) => !AllSpace(s) && s != Sentinel
    case JNull => false
    case _ => true
  }

  /** Lines 202-207 for one value: whether it replaces its default. */
  method ShouldReplace(val: Json) returns (replace: bool)
    ensures replace == Overrides(val)
  {
    if val.JList? {
      replace := val.items != [];
    } else if val.JStr? {
      StripEmptyIffAllSpace(val.s);
      replace := Strip(val.s) != "" && val.s != Sentinel;
    } else {
      replace := val != JNull;
    }
  }

  /** Lines 194-207: the defaults, overwritten by the extracted values that
      pass the merge rule. */
  method AssembleDefaults(extracted: map<OutputField, Json>) returns (payload: map<OutputField, Json>)
    ensures payload.Keys == AllFields
    ensures forall f :: f in payload ==>
              payload[f] == if f in extracted && Overrides(extracted[f]) then extracted[f] else Default(f)
  {
    hide Overrides;
    AllFieldsComplete();
    payload := Defaults;
    var todo := extracted.Keys;
    while todo != {}
      invariant todo <= extracted.Keys
      invariant payload.Keys == AllFields
      invariant forall f :: f in payload ==>
                  payload[f] == if f in extracted && f !in todo && Overrides(extracted[f]) then extracted[f] else Default(f)
      decreases |todo|
    {
      var key :| key in todo;
      var replace := ShouldReplace(extracted[key]);
      if replace {
        payload := payload[key := extracted[key]];
      }
      todo := todo - {key};
    }
  }

  /** `output_payload_with_defaults` under its JSON keys, lines 194-200. */
  function Named(payload: map<OutputField, Json>): (r: map<string, Json>)
    requires payload.Keys == AllFields
    ensures r.Keys == OutputKeys
  {
    AllFieldsComplete();
    map[
      "uniqueId" := payload[UniqueIdField],
      "faisala_miti" := payload[FaisalaMitiField],
      "judges" := payload[JudgesField],
      "pakshya" := payload[PakshyaField],
      "bipakshya" := payload[BipakshyaField],
      "pakshya_adhibakta" := payload[PakshyaAdhibaktaField],
      "bipakshya_adhibakta" := payload[BipakshyaAdhibaktaField],
      "abalambit_najir_explicit" := payload[AbalambitNajirField],
      "sambaddha_kanoon_explicit" := payload[SambaddhaKanoonField],
      "ullikhit_najir_implicit" := payload[UllikhitNajirField],
      "ullikhit_kanoon_implicit" := payload[UllikhitKanoonField]]
  }

  /** Each field sits under its own key. */
  lemma NamedAt(payload: map<OutputField, Json>, f: OutputField)
    requires payload.Keys == AllFields
    ensures KeyName(f) in Named(payload) && Named(payload)[KeyName(f)] == payload[f]
  {
  }

  /** Lines 210-213: the body, when the record has one that is not null,
      moves from `Faisala Detail` to `Faisala_Detail_raw_text`; `Faisala
      Detail` itself is always dropped. */
  method MoveBody(record: map<string, Json>, detail: Json) returns (out: map<string, Json>)
    ensures out.Keys == (record.Keys - {DetailKey})
                        + (if DetailKey in record && detail != JNull then {RawTextKey} else {})
    ensures DetailKey in record && detail != JNull ==> out[RawTextKey] == detail
    ensures forall k :: k in record && k != DetailKey && !(k == RawTextKey && DetailKey in record && detail != JNull) ==>
              out[k] == record[k]
  {
    out := record;
    if DetailKey in out && detail != JNull {
      out := out[RawTextKey := detail];
      if DetailKey in out {
        out := out - {DetailKey};
      }
    } else if DetailKey in out {
      out := out - {DetailKey};
    }
  }

  // ----- lines 153-214 -----

  /** Lines 153-207: the eleven fields of a record, extracted and merged into the defaults. */
  method MergeFields(pats: Patterns, cut: Cut, title: Json, postMeta: Json, detail: Json) returns (payload: map<OutputField, Json>)
    requires title.JStr? || !Truthy(title)
    requires detail.JStr? || !Truthy(detail)
    ensures payload.Keys == AllFields
    ensures forall f :: f in payload && FieldHolds(pats, cut, title, postMeta, detail, f, payload[f])
  {
    var extracted := ExtractFields(pats, cut, title, postMeta, detail);
    payload := AssembleDefaults(extracted);
    PayloadHolds(pats, cut, title, postMeta, detail, extracted, payload);
  }

  /** Lines 209-213: the merged fields laid over a copy of the record, and
      the body moved to `Faisala_Detail_raw_text`. */
  method LayOut(data: map<string, Json>, payload: map<OutputField, Json>) returns (out: map<string, Json>)
    requires payload.Keys == AllFields
    ensures out.Keys == (data.Keys + OutputKeys - {DetailKey})
                        + (if DetailKey in data && data[DetailKey] != JNull then {RawTextKey} else {})
    ensures DetailKey !in out
    ensures DetailKey in data && data[DetailKey] != JNull ==> out[RawTextKey] == data[DetailKey]
    ensures RawTextKey in data && !(DetailKey in data && data[DetailKey] != JNull) ==> out[RawTextKey] == data[RawTextKey]
    ensures forall k :: k in data && k !in OutputKeys && k != DetailKey && k != RawTextKey ==> out[k] == data[k]
    ensures forall f :: f in payload ==> KeyName(f) in out && out[KeyName(f)] == payload[f]
  {
    hide Named, KeyName;
    ReservedKeys();
    var named := Named(payload);
    forall f | f in payload ensures KeyName(f) in named && named[KeyName(f)] == payload[f] {
      NamedAt(payload, f);
    }
    out := MoveBody(data + named, Get(data, DetailKey));
  }

  /** The per-record logic of lines 153-214: the script itself with `cut`
      = AsWritten, its correction with `cut` = Corrected. A `Title` or
      `Faisala Detail` that is truthy but not a string would make the pattern
      search raise outside any handler, so the record must not have one. */
  method ProcessRecord(pats: Patterns, cut: Cut, data: map<string, Json>) returns (out: map<string, Json>)
    requires Get(data, "Title").JStr? || !Truthy(Get(data, "Title"))
    requires Get(data, DetailKey).JStr? || !Truthy(Get(data, DetailKey))
    ensures out.Keys == (data.Keys + OutputKeys - {DetailKey})
                        + (if DetailKey in data && data[DetailKey] != JNull then {RawTextKey} else {})
    ensures DetailKey !in out
    ensures DetailKey in data && data[DetailKey] != JNull ==> out[RawTextKey] == data[DetailKey]
    ensures RawTextKey in data && !(DetailKey in data && data[DetailKey] != JNull) ==> out[RawTextKey] == data[RawTextKey]
    ensures forall k :: k in data && k !in OutputKeys && k != DetailKey && k != RawTextKey ==> out[k] == data[k]
    ensures forall f :: KeyName(f) in out &&
              FieldHolds(pats, cut, Get(data, "Title"), Get(data, "Post Meta"), Get(data, DetailKey), f, out[KeyName(f)])
  {
    hide FieldHolds, KeyName;
    var payload := MergeFields(pats, cut, Get(data, "Title"), Get(data, "Post Meta"), Get(data, DetailKey));
    out := LayOut(data, payload);
  }

  /** Every field of the merged payload holds what the record determines. */
  lemma PayloadHolds(pats: Patterns, cut: Cut, title: Json, postMeta: Json, detail: Json,
                     extracted: map<OutputField, Json>, payload: map<OutputField, Json>)
    requires forall f :: f in extracted <==> IsExtracted(title, detail, f)
    requires forall f :: f in extracted ==>
               Settled(f, extracted[f]) && FieldHolds(pats, cut, title, postMeta, detail, f, extracted[f])
    requires payload.Keys == AllFields
    requires forall f :: f in payload ==>
               payload[f] == if f in extracted && Overrides(extracted[f]) then extracted[f] else Default(f)
    ensures forall f :: f in payload && FieldHolds(pats, cut, title, postMeta, detail, f, payload[f])
  {
    AllFieldsComplete();
    SettledAreKept(extracted, payload);
  }

  // ----- lemmas -----

  lemma AllFieldsComplete()
    ensures forall f: OutputField :: f in AllFields
  {
    forall f: OutputField ensures f in AllFields {
      match f
      case UniqueIdField =>
      case FaisalaMitiField =>
      case JudgesField =>
      case PakshyaField =>
      case BipakshyaField =>
      case PakshyaAdhibaktaField =>
      case BipakshyaAdhibaktaField =>
      case AbalambitNajirField =>
      case SambaddhaKanoonField =>
      case UllikhitNajirField =>
      case UllikhitKanoonField =>
    }
  }

  /** The schema never writes the body key or its new name. */
  lemma ReservedKeys()
    ensures DetailKey !in OutputKeys && RawTextKey !in OutputKeys
  {
  }

  /** Merging settled values keeps every one of them. */
  lemma SettledAreKept(extracted: map<OutputField, Json>, payload: map<OutputField, Json>)
    requires forall f :: f in extracted ==> Settled(f, extracted[f])
    requires payload.Keys == AllFields
    requires forall f :: f in payload ==>
               payload[f] == if f in extracted && Overrides(extracted[f]) then extracted[f] else Default(f)
    ensures forall f :: f in payload ==> payload[f] == if f in extracted then extracted[f] else Default(f)
  {
  }

  /** A cleaned value the extractor keeps is never blank. */
  lemma CleanValueNotBlank(c: Cleaner, x: string)
    requires CleanValue(c, x).Some? && CleanValue(c, x).value != ""
    ensures !AllSpace(CleanValue(c, x).value)
  {
    var v := CleanValue(c, x).value;
    match c
    case NoCleaner =>
      StripIsTrimmed(x);
      assert !IsSpace(v[0]);
    case SingleLineCleaner =>
      if !PassThrough(Some(x)) {
        CleanSingleLineResult(x);
      }
      assert !IsSpace(v[0]);
    case MultiLineCleaner =>
      if !PassThrough(Some(x)) {
        CleanMultiLineResult(x);
      }
      assert !IsSpace(v[0]);
  }

  /** With "NA" as its default, single mode returns "NA" or a non-blank value. */
  lemma ExtractSingleSettled(found: FindResult, gi: int, c: Cleaner)
    ensures var r := ExtractSingle(found, gi, c, Sentinel); r == Sentinel || !AllSpace(r)
  {
    if !found.Raised? && !NoMatches(found) {
      match FirstValue(found, gi)
      case None =>
      case Some(v) =>
        if v.Some? && CleanValue(c, v.value).Some? && CleanValue(c, v.value).value != "" {
          CleanValueNotBlank(c, v.value);
        }
    }
  }

  lemma FaisalaMitiSettled(pats: Patterns, postMeta: Json)
    ensures var r := FaisalaMitiValue(pats, postMeta); r == Sentinel || !AllSpace(r)
  {
    if postMeta.JStr? {
      ExtractSingleSettled(pats.faisalaMiti(postMeta.s), 1, SingleLineCleaner);
    }
  }

  lemma BodyValueSettled(pattern: string -> FindResult, body: string)
    ensures var r := BodyValue(pattern, body); r == Sentinel || !AllSpace(r)
  {
    ExtractSingleSettled(pattern(body), 1, MultiLineCleaner);
  }

  /** Distinct strings make distinct JSON strings. */
  lemma JStringsNoDups(xs: seq<string>)
    requires NoDups(xs)
    ensures NoDups(JStrings(xs))
  {
  }

  /** The values a body field can hold: a list without duplicates for a list
      field, and "NA" or a non-blank string for a text field. */
  lemma BodyFieldShape(pats: Patterns, cut: Cut, body: string, f: OutputField, v: Json)
    requires FromBody(f) && BodyFieldHolds(pats, cut, body, f, v)
    ensures IsListField(f) ==> v.JList? && NoDups(v.items)
    ensures !IsListField(f) ==> v.JStr? && (v.s == Sentinel || !AllSpace(v.s))
  {
    if IsListField(f) {
      var c: seq<string> :| v.items == JStrings(c) && NoDups(c);
      JStringsNoDups(c);
    } else {
      BodyValueSettled(TextPattern(pats, f), body);
    }
  }

  /** Every field of a processed record is a list without duplicates or a
      string that is "NA" or not blank: the merge never lets a blank value
      through, and no extractor produces a duplicate. */
  lemma FieldValueShape(pats: Patterns, cut: Cut, title: Json, postMeta: Json, detail: Json, f: OutputField, v: Json)
    requires FieldHolds(pats, cut, title, postMeta, detail, f, v)
    ensures IsListField(f) ==> v.JList? && NoDups(v.items)
    ensures !IsListField(f) ==> v.JStr? && (v.s == Sentinel || !AllSpace(v.s))
  {
    if !IsExtracted(title, detail, f) {
      SentinelIsCleanBlock();
    } else if f.UniqueIdField? {
      UniqueIdSettled(title.s);
    } else if f.FaisalaMitiField? {
      FaisalaMitiSettled(pats, postMeta);
    } else {
      BodyFieldShape(pats, cut, detail.s, f, v);
    }
  }

  lemma {:induction false} StrippedMatchesMembers(matches: seq<string>)
    ensures forall y :: y in StrippedMatches(matches) <==>
              exists i :: 0 <= i < |matches| && matches[i] != "" && y == Strip(matches[i])
  {
    if matches != [] {
      StrippedMatchesMembers(matches[1..]);
      forall y | y in StrippedMatches(matches)
        ensures exists i :: 0 <= i < |matches| && matches[i] != "" && y == Strip(matches[i])
      {
        if !(matches[0] != "" && y == Strip(matches[0])) {
          assert y in StrippedMatches(matches[1..]);
          var i :| 0 <= i < |matches[1..]| && matches[1..][i] != "" && y == Strip(matches[1..][i]);
          assert matches[i + 1] == matches[1..][i];
        }
      }
      forall y, i | 0 <= i < |matches| && matches[i] != "" && y == Strip(matches[i])
        ensures y in StrippedMatches(matches)
      {
        if i > 0 {
          assert matches[1..][i - 1] == matches[i];
        }
      }
    }
  }

  /** A stripped, non-empty text comes out of the single-line cleaner as it went in. */
  lemma CleanStripped(y: string)
    requires y != "" && Trimmed(y)
    ensures CleanValue(SingleLineCleaner, y) == Some(y)
  {
    StripTrimmed(y);
  }

  /** Line 188: the implicit precedents are exactly the non-blank stripped
      texts of the pattern's non-empty matches, without duplicates. */
  lemma ImplicitPrecedentsMembers(matches: seq<string>, x: string)
    ensures NoDups(ImplicitPrecedents(matches))
    ensures x in ImplicitPrecedents(matches) <==>
              exists i :: 0 <= i < |matches| && matches[i] != "" && x == Strip(matches[i]) && x != ""
  {
    var sm := StrippedMatches(matches);
    CleanEachMembers(SingleLineCleaner, sm);
    StrippedMatchesMembers(matches);
    assert x in Elems(ImplicitPrecedents(matches)) <==> x in Elems(CleanEach(SingleLineCleaner, sm));
    if x in CleanEach(SingleLineCleaner, sm) {
      var k :| 0 <= k < |sm| && sm[k] != "" && CleanValue(SingleLineCleaner, sm[k]) == Some(x) && x != "";
      assert sm[k] in sm;
      var i :| 0 <= i < |matches| && matches[i] != "" && sm[k] == Strip(matches[i]);
      StripIsTrimmed(matches[i]);
      CleanStripped(sm[k]);
    }
    if exists i :: 0 <= i < |matches| && matches[i] != "" && x == Strip(matches[i]) && x != "" {
      var i :| 0 <= i < |matches| && matches[i] != "" && x == Strip(matches[i]) && x != "";
      assert x in sm;
      var k :| 0 <= k < |sm| && sm[k] == x;
      StripIsTrimmed(matches[i]);
      CleanStripped(x);
      assert CleanedFrom(SingleLineCleaner, sm, x);
    }
  }

  /** As the source is written, a body in which the metadata block is found
      gets no judges: they are searched in "", where the judges pattern,
      which needs "माननीय", finds nothing. */
  lemma JudgesLostAsWritten(pats: Patterns, title: Json, postMeta: Json, detail: Json, v: Json)
    requires detail.JStr? && detail.s != ""
    requires MetadataBlockAt(pats.metadataBlockAt, detail.s).Some?
    requires pats.judges("") == Strings([])
    requires FieldHolds(pats, AsWritten, title, postMeta, detail, JudgesField, v)
    ensures v == JList([])
  {
    PrimaryBlockAsWrittenIsEmpty(pats.metadataBlockAt, detail.s);
    assert JudgesValue(pats, AsWritten, detail.s) == [];
    var c: seq<string> :| v.items == JStrings(c) && NoDups(c) && Elems(c) == Elems([]);
    ElemsEmpty<string>([]);
    ElemsEmpty(c);
  }

  /** The two cuts differ only in the judges of a body whose metadata block is found. */
  lemma CutsAgree(pats: Patterns, title: Json, postMeta: Json, detail: Json, f: OutputField, v: Json)
    requires !f.JudgesField? || !detail.JStr? || MetadataBlockAt(pats.metadataBlockAt, detail.s).None?
    ensures FieldHolds(pats, AsWritten, title, postMeta, detail, f, v) <==> FieldHolds(pats, Corrected, title, postMeta, detail, f, v)
  {
    if f.JudgesField? && detail.JStr? {
      assert JudgesValue(pats, AsWritten, detail.s) == JudgesValue(pats, Corrected, detail.s);
    }
  }

  /** The rewritten decision number always overrides its default. */
  lemma UniqueIdSettled(title: string)
    requires UniqueIdMatch(title).Some?
    ensures Overrides(JStr(UniqueId(UniqueIdMatch(title).value)))
  {
    UniqueIdMatchSound(title);
    var g := UniqueIdMatch(title).value;
    var k :| IdShape(g, k);
    UniqueIdRewrite(g, k);
  }
}
