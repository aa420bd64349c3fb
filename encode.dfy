/**
 * The `TextEncoder.prototype.encode` hook (inject.js:608-694): the text a
 * page hands to the encoder, after the hook has had its chance to rewrite a
 * manifest request or a message-layer chunk carrying one.
 *
 * JSON and base64 are parameters: `parse` is the original `JSON.parse`
 * (`None` is a `SyntaxError`), `stringify` the original `JSON.stringify`,
 * `toText` the string conversion `atob` applies to its argument, and
 * `atob` / `btoa` the two base64 functions (`None` is the exception they
 * throw). A parsed document gets a graph of its own; none of its objects has
 * been seen by the walk yet.
 */
module Encode {
  import opened Wrappers
  import opened Strings
  import opened Values
  import opened Classifier
  import opened Walk
  import opened Interception

  /** What `JSON.parse` builds: a graph and the value at its top. */
  datatype Doc = Doc(heap: Heap, root: Value)

  /** A parsed document as the text's rewrite sees it: its state and its top value. */
  datatype Parsed = Parsed(state: State, root: Value)

  /** The outcome of the profile / HDCP / caps rewrite of one parsed request. */
  datatype Step = Unchanged | Rewritten(text: string) | Threw

  /**
   * `JSON.parse` as the page calls it once inject.js has replaced it
   * (inject.js:701): the original parse, then the parse hook. `None` is
   * any exception: a syntax error or the hook's own `TypeError`.
   */
  ghost function HookedParse(text: string, parse: string -> Option<Doc>): (r: Option<Parsed>)
    ensures r.Some? ==> parse(text).Some? && r.value.root == parse(text).value.root
    ensures parse(text).None? ==> r.None?
  {
    match parse(text)
    case None => None
    case Some(doc) =>
      var p := ParseHook(State(doc.heap, {}), doc.root);
      if p.threw then None else Some(Parsed(p.state, doc.root))
  }

  /** The original `JSON.parse`, without the hook. */
  function PlainParse(text: string, parse: string -> Option<Doc>): (r: Option<Parsed>)
    ensures r.Some? <==> parse(text).Some?
    ensures r.Some? ==> r.value == Parsed(State(parse(text).value.heap, {}), parse(text).value.root)
  {
    match parse(text)
    case None => None
    case Some(doc) => Some(Parsed(State(doc.heap, {}), doc.root))
  }

  /** The parse a step uses: the hooked one, or the original one. */
  ghost function ParseWith(hooked: bool, text: string, parse: string -> Option<Doc>): Option<Parsed>
  {
    if hooked then HookedParse(text, parse) else PlainParse(text, parse)
  }

  /**
   * Profiles, HDCP and caps on a parsed request, then re-serialization when
   * `modified` is set. Reading `.profiles` of `null` throws.
   */
  function RewriteText(p: Parsed, stringify: (Heap, Value) -> string): (r: Step)
    ensures p.root.Null? ==> r == Threw
    ensures r.Rewritten? ==> r.text == stringify(RewriteRequest(p.state, p.root).state.heap, p.root)
  {
    if p.root.Null? then Threw
    else
      var w := RewriteRequest(p.state, p.root);
      if w.threw then Threw
      else if w.modified then Rewritten(stringify(w.state.heap, p.root))
      else Unchanged
  }

  /**
   * The rewrite of a message-layer chunk `c` (inject.js:650-682): its `data`
   * is base64-decoded, parsed, rewritten, re-encoded and stored back, and the
   * chunk is serialized again. `None` is every way of leaving the inner
   * `try` without a new text.
   */
  ghost function ChunkRewrite(c: Parsed, hooked: bool, parse: string -> Option<Doc>,
                              stringify: (Heap, Value) -> string, toText: (Heap, Value) -> string,
                              atob: string -> Option<string>, btoa: string -> Option<string>): (r: Option<string>)
    ensures r.Some? ==> IsObject(c.state.heap, c.root)
  {
    var h := c.state.heap;
    var data := if IsObject(h, c.root) then Field(h, c.root.id, "data") else Undefined;
    if c.root.Null? || !Truthy(h, data) then None
    else
      match atob(toText(h, data))
      case None => None
      case Some(inner) =>
        if !InnerGate(inner) then None
        else
          match ParseWith(hooked, inner, parse)
          case None => None
          case Some(p) =>
            match RewriteText(p, stringify)
            case Rewritten(t) =>
              (match btoa(t)
               case None => None
               case Some(b) =>
                 match SetField(h, c.root.id, "data", Str(b))
                 case None => None
                 case Some(h') => Some(stringify(h', c.root)))
            case _ => None
  }

  /** The `catch` of the first `try`: the chunk path, on the same input. */
  ghost function EnvelopePath(input: string, parse: string -> Option<Doc>,
                              stringify: (Heap, Value) -> string, toText: (Heap, Value) -> string,
                              atob: string -> Option<string>, btoa: string -> Option<string>): string
  {
    if !EnvelopeGate(input) then input
    else
      match HookedParse(input, parse)
      case None => input
      case Some(c) =>
        match ChunkRewrite(c, true, parse, stringify, toText, atob, btoa)
        case None => input
        case Some(t) => t
  }

  /**
   * The hook as written: the text handed on to the original encoder. Both
   * parses are the hooked `JSON.parse`, and the chunk path runs only after
   * the first `try` threw.
   */
  ghost function EncodeHook(input: string, parse: string -> Option<Doc>,
                            stringify: (Heap, Value) -> string, toText: (Heap, Value) -> string,
                            atob: string -> Option<string>, btoa: string -> Option<string>): (r: string)
    ensures !EncodeGate(input) ==> r == input
  {
    if !EncodeGate(input) then input
    else
      match HookedParse(input, parse)
      case None => EnvelopePath(input, parse, stringify, toText, atob, btoa)
      case Some(p) =>
        match RewriteText(p, stringify)
        case Rewritten(t) => t
        case Unchanged => input
        case Threw => EnvelopePath(input, parse, stringify, toText, atob, btoa)
  }

  /**
   * The hook as its comments describe it: the request is parsed with the
   * original `JSON.parse`, so the rewrite sees it as the page built it; a
   * text shaped like a message-layer chunk gets the chunk rewrite when the
   * request rewrite produced nothing, and the outer gate admits such a text.
   */
  ghost function EncodeHookFixed(input: string, parse: string -> Option<Doc>,
                                 stringify: (Heap, Value) -> string, toText: (Heap, Value) -> string,
                                 atob: string -> Option<string>, btoa: string -> Option<string>): (r: string)
    ensures JsLength(input) <= 100 || parse(input).None? ==> r == input
  {
    if JsLength(input) <= 100 then input
    else
      match PlainParse(input, parse)
      case None => input
      case Some(p) =>
        var m := if EncodeGate(input) then RewriteText(p, stringify) else Unchanged;
        if m.Rewritten? then m.text
        else if EnvelopeGate(input) then
          (match ChunkRewrite(p, false, parse, stringify, toText, atob, btoa)
           case None => input
           case Some(t) => t)
        else input
  }

  // ---------------------------------------------------------------------
  // The hooked parse hides the request's missing profiles
  // ---------------------------------------------------------------------

  /** A property the walk may change stays a non-array when it was not one. */
  lemma RaisedKeepsNonArray(h: Heap, h': Heap, id: nat, k: string)
    requires Raised(h, h') && id in h && !Field(h, id, k).Arr?
    ensures !Field(h', id, k).Arr?
  {
  }

  /**
   * The hooked parse of a request whose top object lists `profiles` already
   * completes that list, and leaves a missing `videoOutputInfo` array missing.
   */
  lemma HookedParseCompletes(text: string, parse: string -> Option<Doc>, h: Heap, r: nat)
    requires parse(text) == Some(Doc(h, Ref(r)))
    requires r in h && !h[r].frozen && "profiles" in h[r].keys && Field(h, r, "profiles").Arr?
    requires !Field(h, r, "videoOutputInfo").Arr?
    ensures var p := HookedParse(text, parse);
            p.Some? && p.value.root == Ref(r) && r in p.value.state.heap &&
            Field(p.value.state.heap, r, "profiles").Arr? &&
            MissingProfiles(Field(p.value.state.heap, r, "profiles").items) == [] &&
            !Field(p.value.state.heap, r, "videoOutputInfo").Arr?
  {
    var s0 := State(h, {});
    var i :| 0 <= i < |h[r].keys| && h[r].keys[i] == "profiles";
    ProfilesKeyTriggersParse(h[r].keys, i);
    ProfilesName();
    WalkCompletesProfiles(s0, r, "profiles", 0);
    var s1 := Interim(s0, Ref(r));
    assert s1 == Walk.Walk(s0, r, 0);
    PatchRaises(s0, Ref(r), 0);
    RaisedKeepsNonArray(h, s1.heap, r, "videoOutputInfo");
    var m := MaxResolutionStep(s1, r);
    assert !m.threw;
    assert Field(m.state.heap, r, "profiles") == Field(s1.heap, r, "profiles");
    assert Field(m.state.heap, r, "videoOutputInfo") == Field(s1.heap, r, "videoOutputInfo");
  }

  /** A parsed request with a complete list and no `videoOutputInfo` array is left as it was. */
  lemma CompleteRequestUnchanged(p: Parsed, r: nat, stringify: (Heap, Value) -> string)
    requires p.root == Ref(r) && r in p.state.heap
    requires Field(p.state.heap, r, "profiles").Arr? && MissingProfiles(Field(p.state.heap, r, "profiles").items) == []
    requires !Field(p.state.heap, r, "videoOutputInfo").Arr?
    ensures RewriteText(p, stringify) == Unchanged
  {
  }

  /**
   * As written, a manifest request whose `profiles` list lacks catalog
   * entries reaches the encoder unchanged (unless it has `videoOutputInfo`):
   * the hooked `JSON.parse` completes the list in the parsed copy, so the
   * hook's own profile step finds nothing missing, `modified` stays false
   * and the original text is encoded.
   */
  lemma HookedParseMasksInjection(input: string, parse: string -> Option<Doc>,
                                  stringify: (Heap, Value) -> string, toText: (Heap, Value) -> string,
                                  atob: string -> Option<string>, btoa: string -> Option<string>, h: Heap, r: nat)
    requires parse(input) == Some(Doc(h, Ref(r)))
    requires r in h && !h[r].frozen && "profiles" in h[r].keys && Field(h, r, "profiles").Arr?
    requires MissingProfiles(Field(h, r, "profiles").items) != []
    requires !Field(h, r, "videoOutputInfo").Arr?
    ensures EncodeHook(input, parse, stringify, toText, atob, btoa) == input
  {
    HookedParseCompletes(input, parse, h, r);
    CompleteRequestUnchanged(HookedParse(input, parse).value, r, stringify);
  }

  /**
   * A parsed request whose `profiles` list lacks entries, on an unfrozen top
   * object, is re-serialized from a graph with a complete list whenever the
   * rewrite does not throw.
   */
  lemma RequestRewritten(s: State, r: nat, stringify: (Heap, Value) -> string)
    requires r in s.heap && !s.heap[r].frozen && Field(s.heap, r, "profiles").Arr?
    requires MissingProfiles(Field(s.heap, r, "profiles").items) != []
    ensures var w := RewriteRequest(s, Ref(r));
            !w.threw ==>
              RewriteText(Parsed(s, Ref(r)), stringify) == Rewritten(stringify(w.state.heap, Ref(r))) &&
              Field(w.state.heap, r, "profiles").Arr? &&
              MissingProfiles(Field(w.state.heap, r, "profiles").items) == []
  {
    RewriteCompletesProfiles(s, Ref(r));
    var p := ProfilesStep(s.heap, Ref(r));
    assert p.modified;
    var q := HdcpStep(p.heap, Ref(r), p.modified);
    if HasArray(p.heap, Ref(r), "videoOutputInfo") {
      assert q.modified;
    }
  }

  /**
   * The corrected hook injects: the same request is encoded from a graph in
   * which the `profiles` list holds every catalog entry.
   */
  lemma FixedHookInjectsProfiles(input: string, parse: string -> Option<Doc>,
                                 stringify: (Heap, Value) -> string, toText: (Heap, Value) -> string,
                                 atob: string -> Option<string>, btoa: string -> Option<string>, h: Heap, r: nat)
    requires EncodeGate(input) && parse(input) == Some(Doc(h, Ref(r)))
    requires r in h && !h[r].frozen && Field(h, r, "profiles").Arr?
    requires MissingProfiles(Field(h, r, "profiles").items) != []
    ensures var w := RewriteRequest(State(h, {}), Ref(r));
            !w.threw ==>
              EncodeHookFixed(input, parse, stringify, toText, atob, btoa) == stringify(w.state.heap, Ref(r)) &&
              Field(w.state.heap, r, "profiles").Arr? &&
              MissingProfiles(Field(w.state.heap, r, "profiles").items) == []
  {
    RequestRewritten(State(h, {}), r, stringify);
  }

  // ---------------------------------------------------------------------
  // The chunk path is dead as written
  // ---------------------------------------------------------------------

  /**
   * As written, a text the original `JSON.parse` rejects comes out as it
   * went in: the chunk path, entered from the `catch`, parses that same text
   * again and fails again.
   */
  lemma EnvelopeBranchDead(input: string, parse: string -> Option<Doc>,
                           stringify: (Heap, Value) -> string, toText: (Heap, Value) -> string,
                           atob: string -> Option<string>, btoa: string -> Option<string>)
    requires parse(input).None?
    ensures EncodeHook(input, parse, stringify, toText, atob, btoa) == input
  {
    assert HookedParse(input, parse).None?;
  }

  /**
   * The corrected chunk rewrite on a chunk whose base64 `data` decodes to a
   * request lacking profiles: the re-encoded rewritten request goes into `data`.
   */
  lemma ChunkRewriteStoresRequest(c: Parsed, parse: string -> Option<Doc>,
                                  stringify: (Heap, Value) -> string, toText: (Heap, Value) -> string,
                                  atob: string -> Option<string>, btoa: string -> Option<string>,
                                  d: string, inner: string, h2: Heap, r: nat, b: string)
    requires c.root.Ref? && c.root.id in c.state.heap && !c.state.heap[c.root.id].frozen
    requires Field(c.state.heap, c.root.id, "data") == Str(d) && d != ""
    requires atob(toText(c.state.heap, Str(d))) == Some(inner)
    requires InnerGate(inner) && parse(inner) == Some(Doc(h2, Ref(r)))
    requires r in h2 && !h2[r].frozen && Field(h2, r, "profiles").Arr?
    requires MissingProfiles(Field(h2, r, "profiles").items) != []
    requires !RewriteRequest(State(h2, {}), Ref(r)).threw
    requires btoa(stringify(RewriteRequest(State(h2, {}), Ref(r)).state.heap, Ref(r))) == Some(b)
    ensures ChunkRewrite(c, false, parse, stringify, toText, atob, btoa) ==
            Some(stringify(c.state.heap[c.root.id := Put(c.state.heap[c.root.id], "data", Str(b))], c.root))
  {
    var w := RewriteRequest(State(h2, {}), Ref(r));
    var p := Parsed(State(h2, {}), Ref(r));
    RequestRewritten(State(h2, {}), r, stringify);
    assert ParseWith(false, inner, parse) == Some(p);
    assert RewriteText(p, stringify) == Rewritten(stringify(w.state.heap, Ref(r)));
    var h := c.state.heap;
    assert Truthy(h, Field(h, c.root.id, "data"));
    assert SetField(h, c.root.id, "data", Str(b)) == Some(h[c.root.id := Put(h[c.root.id], "data", Str(b))]);
  }

  /**
   * A message-layer chunk whose base64 `data` is a manifest request lacking
   * profiles: as written the encoder gets the chunk unchanged; the corrected
   * hook stores the rewritten, re-encoded request in `data`, with every
   * catalog entry in its `profiles`.
   */
  lemma FixedHookRewritesEnvelope(input: string, parse: string -> Option<Doc>,
                                  stringify: (Heap, Value) -> string, toText: (Heap, Value) -> string,
                                  atob: string -> Option<string>, btoa: string -> Option<string>,
                                  h: Heap, c: nat, d: string, inner: string, h2: Heap, r: nat, b: string)
    requires JsLength(input) > 100 && EnvelopeGate(input) && !EncodeGate(input)
    requires parse(input) == Some(Doc(h, Ref(c))) && c in h && !h[c].frozen
    requires Field(h, c, "data") == Str(d) && d != "" && atob(toText(h, Str(d))) == Some(inner)
    requires InnerGate(inner) && parse(inner) == Some(Doc(h2, Ref(r)))
    requires r in h2 && !h2[r].frozen && Field(h2, r, "profiles").Arr?
    requires MissingProfiles(Field(h2, r, "profiles").items) != []
    requires !RewriteRequest(State(h2, {}), Ref(r)).threw
    requires btoa(stringify(RewriteRequest(State(h2, {}), Ref(r)).state.heap, Ref(r))) == Some(b)
    ensures EncodeHook(input, parse, stringify, toText, atob, btoa) == input
    ensures EncodeHookFixed(input, parse, stringify, toText, atob, btoa) ==
            stringify(h[c := Put(h[c], "data", Str(b))], Ref(c))
    ensures var w := RewriteRequest(State(h2, {}), Ref(r));
            Field(w.state.heap, r, "profiles").Arr? && MissingProfiles(Field(w.state.heap, r, "profiles").items) == []
  {
    RequestRewritten(State(h2, {}), r, stringify);
    var pc := Parsed(State(h, {}), Ref(c));
    FixedHookTakesChunkPath(input, parse, stringify, toText, atob, btoa, pc);
    ChunkRewriteStoresRequest(pc, parse, stringify, toText, atob, btoa, d, inner, h2, r, b);
  }

  /** A parseable chunk that fails the request gate goes down the chunk path of the corrected hook. */
  lemma FixedHookTakesChunkPath(input: string, parse: string -> Option<Doc>,
                                stringify: (Heap, Value) -> string, toText: (Heap, Value) -> string,
                                atob: string -> Option<string>, btoa: string -> Option<string>, pc: Parsed)
    requires JsLength(input) > 100 && EnvelopeGate(input) && !EncodeGate(input)
    requires PlainParse(input, parse) == Some(pc)
    ensures EncodeHookFixed(input, parse, stringify, toText, atob, btoa) ==
            match ChunkRewrite(pc, false, parse, stringify, toText, atob, btoa)
            case None => input
            case Some(t) => t
  {
  }
}
