/**
 * The hooks of inject.js that act on the shared object graph, as functions
 * on `Walk.State`: the `Object.assign` and `JSON.parse` hooks, the request
 * rewrite shared by the `JSON.stringify` and `TextEncoder.encode` hooks, and
 * the `Object.defineProperties` hook. `Patcher.ConfigPatcher` performs them
 * in place and is proved equal to them.
 */
module Interception {
  import opened Wrappers
  import opened Strings
  import opened Values
  import opened Classifier
  import opened Walk

  // ---------------------------------------------------------------------
  // Object.assign (inject.js:413-431) and JSON.parse (inject.js:700-728)
  // ---------------------------------------------------------------------

  /** `result && typeof result === 'object'`: a plain object or an array. */
  predicate IsObjectLike(h: Heap, v: Value)
  {
    IsObject(h, v) || v.Arr?
  }

  /**
   * The `Object.assign` hook after the original merge has produced
   * `result`: the whole result is patched when one of its own keys passes the
   * merge hook's key test. An array's index names pass no key test.
   */
  function AssignHook(s: State, result: Value): (r: State)
    ensures r.heap.Keys == s.heap.Keys
    ensures !IsObject(s.heap, result) ==> r == s
    ensures IsObject(s.heap, result) && !AssignTrigger(s.heap[result.id].keys) ==> r == s
  {
    if IsObject(s.heap, result) && AssignTrigger(s.heap[result.id].keys) then Patch(s, result, 0)
    else s
  }

  /** The fixed object `{ width: 3840, height: 2160 }` the parse hook stores under `maxResolution`. */
  const MaxResolutionRecord: Record :=
    Record(["width", "height"], map["width" := Num(TargetWidth), "height" := Num(TargetHeight)], false)

  datatype ParseResult = ParseResult(state: State, threw: bool)

  /**
   * The `JSON.parse` hook after the original parse has produced `result`:
   * the result is patched when one of its keys passes the parse hook's key
   * test, and a truthy `maxResolution` property is then replaced by a new
   * object `{ width: 3840, height: 2160 }`. That assignment is outside any
   * `try`: on a frozen result it throws out of `JSON.parse`.
   */
  ghost function ParseHook(s: State, result: Value): (r: ParseResult)
    ensures r.state.heap.Keys >= s.heap.Keys
    ensures !IsObject(s.heap, result) ==> r == ParseResult(s, false)
  {
    if !IsObject(s.heap, result) then ParseResult(s, false)
    else MaxResolutionStep(Interim(s, result), result.id)
  }

  /**
   * `if (result.maxResolution) result.maxResolution = { width: 3840, height: 2160 }`
   * on object `id`; the new object takes the least unused id.
   */
  ghost function MaxResolutionStep(s: State, id: nat): (r: ParseResult)
    requires id in s.heap
    ensures r.state.heap.Keys >= s.heap.Keys && r.state.visited == s.visited
    ensures r.threw <==> Truthy(s.heap, Field(s.heap, id, "maxResolution")) && s.heap[id].frozen
    ensures forall j, k :: j in s.heap && (j != id || k != "maxResolution") ==>
              Field(r.state.heap, j, k) == Field(s.heap, j, k)
  {
    if Truthy(s.heap, Field(s.heap, id, "maxResolution")) then
      var nid := FreshId(s.heap);
      var h2 := s.heap[nid := MaxResolutionRecord];
      match SetField(h2, id, "maxResolution", Ref(nid))
      case None => ParseResult(State(h2, s.visited), true)
      case Some(h3) => ParseResult(State(h3, s.visited), false)
    else ParseResult(s, false)
  }

  /**
   * A parse result whose `maxResolution` is truthy and that is not frozen
   * ends up with `maxResolution` pointing to a new `{ width: 3840, height: 2160 }`.
   */
  lemma ParseHookForcesMaxResolution(s: State, result: Value)
    requires IsObject(s.heap, result) && !s.heap[result.id].frozen
    ensures var r := ParseHook(s, result);
            !r.threw &&
            (Truthy(Interim(s, result).heap, Field(Interim(s, result).heap, result.id, "maxResolution")) ==>
               var m := Field(r.state.heap, result.id, "maxResolution");
               m.Ref? && m.id !in s.heap && r.state.heap[m.id] == MaxResolutionRecord)
  {
    var s1 := Interim(s, result);
    PatchRaises(s, result, 0);
  }

  /** The state after the parse hook's patch step, before the `maxResolution` step. */
  function Interim(s: State, result: Value): (r: State)
    requires IsObject(s.heap, result)
    ensures r.heap.Keys == s.heap.Keys
    ensures !ParseTrigger(s.heap[result.id].keys) ==> r == s
  {
    if ParseTrigger(s.heap[result.id].keys) then Patch(s, result, 0) else s
  }

  // ---------------------------------------------------------------------
  // The request rewrite of the serialization hooks (inject.js:567-591, 616-635)
  // ---------------------------------------------------------------------

  /** What a rewrite step leaves: the graph, whether `modified` is set, and whether a write threw. */
  datatype Outcome = Outcome(heap: Heap, modified: bool, threw: bool)

  /** The HDCP versions written into every output descriptor. */
  const HdcpVersions: seq<Value> := [Str("2.2"), Str("2.1"), Str("2.0"), Str("1.4")]

  /** Whether `Array.isArray(root[k])` holds for a plain object `root`. */
  predicate HasArray(h: Heap, root: Value, k: string)
  {
    IsObject(h, root) && Field(h, root.id, k).Arr?
  }

  /**
   * "Inject 4K profiles": a `profiles` array on the root that lacks catalog
   * entries is replaced by the merge and `modified` is set.
   */
  function ProfilesStep(h: Heap, root: Value): (o: Outcome)
    ensures o.heap.Keys == h.Keys
    ensures !o.threw && !o.modified ==> o.heap == h
    ensures o.modified ==>
              (!o.threw && HasArray(h, root, "profiles") &&
               o.heap == h[root.id := Put(h[root.id], "profiles", Arr(MergeProfiles(Field(h, root.id, "profiles").items)))])
    ensures o.threw ==> HasArray(h, root, "profiles") && o.heap == h && h[root.id].frozen
  {
    if HasArray(h, root, "profiles") then
      var items := Field(h, root.id, "profiles").items;
      if MissingProfiles(items) == [] then Outcome(h, false, false)
      else
        match SetField(h, root.id, "profiles", Arr(MergeProfiles(items)))
        case None => Outcome(h, false, true)
        case Some(h') => Outcome(h', true, false)
    else Outcome(h, false, false)
  }

  /** The two writes on one output descriptor object `c`; the second cannot throw once the first did not. */
  function HdcpWrite(h: Heap, c: nat): (r: Option<Heap>)
    requires c in h
    ensures r.None? <==> h[c].frozen
    ensures r.Some? ==> r.value.Keys == h.Keys
    ensures r.Some? ==> Field(r.value, c, "supportedHdcpVersions") == Arr(HdcpVersions) &&
                        Field(r.value, c, "isHdcpEngaged") == Bool(true)
    ensures r.Some? ==> forall j, k :: j in h && (j != c || (k != "supportedHdcpVersions" && k != "isHdcpEngaged")) ==>
                          Field(r.value, j, k) == Field(h, j, k)
  {
    match SetField(h, c, "supportedHdcpVersions", Arr(HdcpVersions))
    case None => None
    case Some(h1) => SetField(h1, c, "isHdcpEngaged", Bool(true))
  }

  /**
   * The `for (const info of videoOutputInfo)` loop, with `modified` as an
   * accumulator. An array element is an object too: the two writes land on
   * it and set `modified`, but `JSON.stringify` never serializes them, so
   * the graph does not record them.
   */
  function HdcpItems(h: Heap, items: seq<Value>, modified: bool): (o: Outcome)
    ensures o.heap.Keys == h.Keys
    ensures modified ==> o.modified
    decreases |items|
  {
    if items == [] then Outcome(h, modified, false)
    else
      var x := items[0];
      if x.Arr? then HdcpItems(h, items[1..], true)
      else if IsObject(h, x) then
        match HdcpWrite(h, x.id)
        case None => Outcome(h, modified, true)
        case Some(h1) => HdcpItems(h1, items[1..], true)
      else HdcpItems(h, items[1..], modified)
  }

  /** "Ensure HDCP 2.2" on the root's `videoOutputInfo` array. */
  function HdcpStep(h: Heap, root: Value, modified: bool): (o: Outcome)
    ensures o.heap.Keys == h.Keys
  {
    if HasArray(h, root, "videoOutputInfo") then HdcpItems(h, Field(h, root.id, "videoOutputInfo").items, modified)
    else Outcome(h, modified, false)
  }

  datatype Rewrite = Rewrite(state: State, modified: bool, threw: bool)

  /**
   * The body of the serialization hooks' `try`: profile injection, the HDCP
   * loop, then `patchConfigValues` on the root. A throw skips the rest.
   */
  function RewriteRequest(s: State, root: Value): (r: Rewrite)
    ensures r.state.heap.Keys == s.heap.Keys
  {
    var p := ProfilesStep(s.heap, root);
    if p.threw then Rewrite(State(p.heap, s.visited), p.modified, true)
    else
      var q := HdcpStep(p.heap, root, p.modified);
      if q.threw then Rewrite(State(q.heap, s.visited), q.modified, true)
      else Rewrite(Patch(State(q.heap, s.visited), root, 0), q.modified, false)
  }

  /** The HDCP loop writes only the two HDCP fields, and only the values it stands for. */
  ghost predicate HdcpFrame(h: Heap, h': Heap)
  {
    h'.Keys == h.Keys &&
    forall j, k :: j in h ==>
      Field(h', j, k) == Field(h, j, k) ||
      (k == "supportedHdcpVersions" && Field(h', j, k) == Arr(HdcpVersions)) ||
      (k == "isHdcpEngaged" && Field(h', j, k) == Bool(true))
  }

  lemma {:induction false} HdcpItemsFrame(h: Heap, items: seq<Value>, modified: bool)
    ensures HdcpFrame(h, HdcpItems(h, items, modified).heap)
    decreases |items|
  {
    if items != [] {
      var x := items[0];
      if x.Arr? {
        HdcpItemsFrame(h, items[1..], true);
      } else if IsObject(h, x) {
        match HdcpWrite(h, x.id)
        case None =>
        case Some(h1) =>
          HdcpItemsFrame(h1, items[1..], true);
      } else {
        HdcpItemsFrame(h, items[1..], modified);
      }
    }
  }

  /** Every object element of the list carries both HDCP fields at the end of a loop that did not throw. */
  lemma {:induction false} HdcpItemsSets(h: Heap, items: seq<Value>, modified: bool)
    ensures var o := HdcpItems(h, items, modified);
            !o.threw ==> forall x :: x in items && IsObject(h, x) ==>
              Field(o.heap, x.id, "supportedHdcpVersions") == Arr(HdcpVersions) &&
              Field(o.heap, x.id, "isHdcpEngaged") == Bool(true)
    decreases |items|
  {
    if items != [] {
      var x := items[0];
      if x.Arr? {
        HdcpItemsSets(h, items[1..], true);
      } else if IsObject(h, x) {
        match HdcpWrite(h, x.id)
        case None =>
        case Some(h1) =>
          HdcpItemsSets(h1, items[1..], true);
          HdcpItemsFrame(h1, items[1..], true);
      } else {
        HdcpItemsSets(h, items[1..], modified);
      }
    }
  }

  /** A loop that did not throw sets `modified` exactly when the list holds an object. */
  lemma {:induction false} HdcpItemsModified(h: Heap, items: seq<Value>, modified: bool)
    ensures var o := HdcpItems(h, items, modified);
            !o.threw ==> (o.modified <==> modified || exists x :: x in items && (x.Arr? || IsObject(h, x)))
    decreases |items|
  {
    if items != [] {
      var x := items[0];
      if x.Arr? {
        assert x in items;
      } else if IsObject(h, x) {
        assert x in items;
        match HdcpWrite(h, x.id)
        case None =>
        case Some(h1) =>
      } else {
        HdcpItemsModified(h, items[1..], modified);
        if exists y :: y in items && (y.Arr? || IsObject(h, y)) {
          var y :| y in items && (y.Arr? || IsObject(h, y));
          assert y in items[1..];
        }
        if exists y :: y in items[1..] && (y.Arr? || IsObject(h, y)) {
          var y :| y in items[1..] && (y.Arr? || IsObject(h, y));
          assert y in items;
        }
      }
    }
  }

  lemma HdcpStepFrame(h: Heap, root: Value, modified: bool)
    ensures HdcpFrame(h, HdcpStep(h, root, modified).heap)
  {
    if HasArray(h, root, "videoOutputInfo") {
      HdcpItemsFrame(h, Field(h, root.id, "videoOutputInfo").items, modified);
    }
  }

  /** The profile step that did not throw leaves a complete `profiles` array on the root. */
  lemma ProfilesStepCompletes(h: Heap, root: Value)
    requires HasArray(h, root, "profiles")
    ensures var p := ProfilesStep(h, root);
            !p.threw ==> Field(p.heap, root.id, "profiles").Arr? &&
                         MissingProfiles(Field(p.heap, root.id, "profiles").items) == []
  {
    MergeProfilesSpec(Field(h, root.id, "profiles").items);
  }

  /** The walk leaves a complete profile list complete. */
  lemma PatchKeepsProfiles(s: State, root: Value, id: nat)
    requires id in s.heap && "profiles" in s.heap[id].fields
    requires Field(s.heap, id, "profiles").Arr? && MissingProfiles(Field(s.heap, id, "profiles").items) == []
    ensures var h' := Patch(s, root, 0).heap;
            Field(h', id, "profiles").Arr? && MissingProfiles(Field(h', id, "profiles").items) == []
  {
    var o := Field(s.heap, id, "profiles");
    PatchRaises(s, root, 0);
    ProfilesName();
    MergeProfilesSpec(o.items);
  }

  /**
   * After a rewrite that did not throw, the root's `profiles` array (when
   * there is one) holds every catalog entry.
   */
  lemma RewriteCompletesProfiles(s: State, root: Value)
    requires HasArray(s.heap, root, "profiles")
    ensures var r := RewriteRequest(s, root);
            !r.threw ==> Field(r.state.heap, root.id, "profiles").Arr? &&
                         MissingProfiles(Field(r.state.heap, root.id, "profiles").items) == []
  {
    var id := root.id;
    var p := ProfilesStep(s.heap, root);
    ProfilesStepCompletes(s.heap, root);
    if !p.threw {
      var q := HdcpStep(p.heap, root, p.modified);
      HdcpStepFrame(p.heap, root, p.modified);
      assert Field(q.heap, id, "profiles") == Field(p.heap, id, "profiles");
      if !q.threw {
        PatchKeepsProfiles(State(q.heap, s.visited), root, id);
      }
    }
  }

  /** How the rules classify the name `profiles`. */
  lemma ProfilesName()
    ensures Lower("profiles") == "profiles"
    ensures IsProfilesKey("profiles") && !IsAudioKey("profiles")
  {
    MissingChar("profiles", "audio", 0);
  }

  // ---------------------------------------------------------------------
  // JSON.stringify (inject.js:549-602)
  // ---------------------------------------------------------------------

  datatype Serialized = Serialized(state: State, text: string)

  /**
   * The `JSON.stringify` hook. `stringify` is the original serializer, with
   * the replacer and indentation of the call folded in. The first
   * serialization is returned unless the markers are present, the rewrite
   * did not throw and set `modified`; then the value is serialized again from
   * the rewritten graph. Changes a rewrite made before it threw are kept.
   */
  function StringifyHook(s: State, value: Value, stringify: (Heap, Value) -> string): (r: Serialized)
    ensures r.text == stringify(s.heap, value) || r.text == stringify(r.state.heap, value)
    ensures r.state.heap.Keys == s.heap.Keys
  {
    var first := stringify(s.heap, value);
    if !IsObjectLike(s.heap, value) || !StringifyGate(first) then Serialized(s, first)
    else
      var w := RewriteRequest(s, value);
      if w.threw || !w.modified then Serialized(w.state, first)
      else Serialized(w.state, stringify(w.state.heap, value))
  }

  /** Transparency: without the markers the output and the graph are those of the original serializer. */
  lemma StringifyTransparent(s: State, value: Value, stringify: (Heap, Value) -> string)
    requires !StringifyGate(stringify(s.heap, value))
    ensures StringifyHook(s, value, stringify) == Serialized(s, stringify(s.heap, value))
  {
  }

  /**
   * A request with a `profiles` array that lacks catalog entries, on an object
   * that is not frozen and whose serialization shows the markers, comes out
   * serialized from a graph in which the array holds the whole catalog.
   */
  lemma StringifyInjectsProfiles(s: State, value: Value, stringify: (Heap, Value) -> string)
    requires HasArray(s.heap, value, "profiles") && !s.heap[value.id].frozen
    requires MissingProfiles(Field(s.heap, value.id, "profiles").items) != []
    requires StringifyGate(stringify(s.heap, value))
    ensures var r := StringifyHook(s, value, stringify);
            !RewriteRequest(s, value).threw ==>
              r.state == RewriteRequest(s, value).state &&
              r.text == stringify(r.state.heap, value) &&
              Field(r.state.heap, value.id, "profiles").Arr? &&
              MissingProfiles(Field(r.state.heap, value.id, "profiles").items) == []
  {
    RewriteCompletesProfiles(s, value);
    var p := ProfilesStep(s.heap, value);
    assert p.modified;
    var q := HdcpStep(p.heap, value, p.modified);
    if HasArray(p.heap, value, "videoOutputInfo") {
      assert q.modified;
    }
  }

  // ---------------------------------------------------------------------
  // Object.defineProperties (inject.js:383-407)
  // ---------------------------------------------------------------------

  datatype Defined = Defined(heap: Heap, threw: bool)

  /**
   * The loop over `Object.keys(props)`: a descriptor object whose `value` is a
   * number gets the numeric rules under the property's name. There is no
   * audio skip and no HDCP rule, and the writes are outside any `try`: a
   * frozen descriptor makes `defineProperties` throw.
   */
  function DefineEntries(h: Heap, props: nat, keys: seq<string>): (r: Defined)
    ensures r.heap.Keys == h.Keys
    decreases |keys|
  {
    if keys == [] then Defined(h, false)
    else
      var desc := Field(h, props, keys[0]);
      if IsObject(h, desc) && Field(h, desc.id, "value").Num? then
        match NumberRule(Lower(keys[0]), Field(h, desc.id, "value").n)
        case None => DefineEntries(h, props, keys[1..])
        case Some(t) =>
          match SetField(h, desc.id, "value", Num(t))
          case None => Defined(h, true)
          case Some(h') => DefineEntries(h', props, keys[1..])
      else DefineEntries(h, props, keys[1..])
  }

  /** The descriptors `Object.defineProperties` hands on to the original. */
  function DefinePropertiesHook(h: Heap, props: Value): (r: Defined)
    ensures r.heap.Keys == h.Keys
  {
    if IsObject(h, props) then DefineEntries(h, props.id, h[props.id].keys) else Defined(h, false)
  }

  /**
   * The only change is to `value` fields holding numbers, each raised to a
   * target; every other field, every key list and every frozen flag stays.
   */
  predicate DescriptorsRaised(h: Heap, h': Heap)
  {
    h'.Keys == h.Keys &&
    forall id :: id in h ==>
      h'[id].keys == h[id].keys && h'[id].frozen == h[id].frozen &&
      h'[id].fields.Keys == h[id].fields.Keys &&
      forall k :: k in h[id].fields ==>
        h'[id].fields[k] == h[id].fields[k] ||
        (k == "value" && h[id].fields[k].Num? && h'[id].fields[k].Num? &&
         h[id].fields[k].n < h'[id].fields[k].n &&
         h'[id].fields[k].n in {TargetBitrate, TargetHeight, TargetWidth})
  }

  lemma DescriptorsRaisedTrans(h1: Heap, h2: Heap, h3: Heap)
    requires DescriptorsRaised(h1, h2) && DescriptorsRaised(h2, h3)
    ensures DescriptorsRaised(h1, h3)
  {
  }

  lemma SetValueRaises(h: Heap, d: nat, t: int)
    requires d in h && Field(h, d, "value").Num? && Field(h, d, "value").n < t
    requires t in {TargetBitrate, TargetHeight, TargetWidth}
    ensures SetField(h, d, "value", Num(t)).Some? ==> DescriptorsRaised(h, SetField(h, d, "value", Num(t)).value)
  {
    if !h[d].frozen {
      var h' := h[d := Put(h[d], "value", Num(t))];
      forall id, k | id in h && k in h[id].fields
        ensures h'[id].fields[k] == h[id].fields[k] || (id == d && k == "value")
      {
      }
    }
  }

  lemma {:induction false} DefineEntriesRaises(h: Heap, props: nat, keys: seq<string>)
    ensures DescriptorsRaised(h, DefineEntries(h, props, keys).heap)
    decreases |keys|
  {
    if keys != [] {
      var desc := Field(h, props, keys[0]);
      if IsObject(h, desc) && Field(h, desc.id, "value").Num? {
        var n := Field(h, desc.id, "value").n;
        match NumberRule(Lower(keys[0]), n)
        case None =>
          DefineEntriesRaises(h, props, keys[1..]);
        case Some(t) =>
          SetValueRaises(h, desc.id, t);
          match SetField(h, desc.id, "value", Num(t))
          case None =>
          case Some(h') =>
            DefineEntriesRaises(h', props, keys[1..]);
            DescriptorsRaisedTrans(h, h', DefineEntries(h', props, keys[1..]).heap);
      } else {
        DefineEntriesRaises(h, props, keys[1..]);
      }
    }
  }

  /**
   * The exact effect of one entry whose descriptor holds a numeric `value`:
   * a writable descriptor receives the corrected number and the loop goes
   * on; a frozen one whose rule fires makes `defineProperties` throw with
   * nothing written by this entry.
   */
  lemma DefineEntriesStep(h: Heap, props: nat, keys: seq<string>)
    requires keys != [] && IsObject(h, Field(h, props, keys[0]))
    requires Field(h, Field(h, props, keys[0]).id, "value").Num?
    ensures var d := Field(h, props, keys[0]).id;
            var n := Field(h, d, "value").n;
            !h[d].frozen ==>
              DefineEntries(h, props, keys) ==
              DefineEntries(h[d := Put(h[d], "value", Num(Corrected(Lower(keys[0]), n)))], props, keys[1..])
    ensures var d := Field(h, props, keys[0]).id;
            var n := Field(h, d, "value").n;
            h[d].frozen && NumberRule(Lower(keys[0]), n).Some? ==> DefineEntries(h, props, keys) == Defined(h, true)
  {
    var d := Field(h, props, keys[0]).id;
    var n := Field(h, d, "value").n;
    if NumberRule(Lower(keys[0]), n).None? {
      assert Put(h[d], "value", Num(n)).fields == h[d].fields;
      assert h[d := Put(h[d], "value", Num(n))] == h;
    }
  }

  /** The id of the descriptor object the entry `k` of `props` holds. */
  function DescriptorOf(h: Heap, props: nat, k: string): nat
  {
    match Field(h, props, k)
    case Ref(d) => d
    case _ => props
  }

  /**
   * Every entry of `props` listed in `keys` holds its own writable
   * descriptor object, none of them `props` itself.
   */
  predicate SeparateDescriptors(h: Heap, props: nat, keys: seq<string>)
  {
    (forall i :: 0 <= i < |keys| ==>
       IsObject(h, Field(h, props, keys[i])) && DescriptorOf(h, props, keys[i]) != props &&
       !h[DescriptorOf(h, props, keys[i])].frozen) &&
    (forall i, j :: 0 <= i < j < |keys| ==> DescriptorOf(h, props, keys[i]) != DescriptorOf(h, props, keys[j]))
  }

  /** An object no entry refers to is left exactly as it was, and nothing throws. */
  lemma {:induction false} DefineEntriesFrame(h: Heap, props: nat, keys: seq<string>, d: nat)
    requires SeparateDescriptors(h, props, keys) && d in h
    requires forall j :: 0 <= j < |keys| ==> DescriptorOf(h, props, keys[j]) != d
    ensures var r := DefineEntries(h, props, keys); !r.threw && r.heap[d] == h[d]
    decreases |keys|
  {
    if keys != [] {
      var d0 := DescriptorOf(h, props, keys[0]);
      assert IsObject(h, Field(h, props, keys[0]));
      var h1 := if Field(h, d0, "value").Num?
                then h[d0 := Put(h[d0], "value", Num(Corrected(Lower(keys[0]), Field(h, d0, "value").n)))]
                else h;
      if Field(h, d0, "value").Num? {
        DefineEntriesStep(h, props, keys);
      }
      assert DefineEntries(h, props, keys) == DefineEntries(h1, props, keys[1..]);
      assert h1[props] == h[props] || props !in h;
      SeparateAfterStep(h, h1, props, keys, d0);
      DefineEntriesFrame(h1, props, keys[1..], d);
    }
  }

  /** Writing the first descriptor keeps the rest of the entries separate. */
  lemma SeparateAfterStep(h: Heap, h1: Heap, props: nat, keys: seq<string>, d0: nat)
    requires SeparateDescriptors(h, props, keys) && keys != []
    requires d0 == DescriptorOf(h, props, keys[0]) && d0 in h
    requires h1.Keys == h.Keys && h1[d0].frozen == h[d0].frozen
    requires forall id :: id in h && id != d0 ==> h1[id] == h[id]
    ensures SeparateDescriptors(h1, props, keys[1..])
    ensures forall j :: 0 <= j < |keys[1..]| ==>
      DescriptorOf(h1, props, keys[1..][j]) == DescriptorOf(h, props, keys[j + 1])
  {
    forall j | 0 <= j < |keys[1..]|
      ensures Field(h1, props, keys[1..][j]) == Field(h, props, keys[j + 1])
    {
    }
  }

  /**
   * With separate, writable descriptors the loop never throws and every
   * numeric `value` ends as its corrected number under its entry's name.
   */
  lemma {:induction false} DefineEntriesApply(h: Heap, props: nat, keys: seq<string>, i: nat)
    requires SeparateDescriptors(h, props, keys) && i < |keys|
    requires Field(h, DescriptorOf(h, props, keys[i]), "value").Num?
    ensures var r := DefineEntries(h, props, keys);
            var d := DescriptorOf(h, props, keys[i]);
            !r.threw && Field(r.heap, d, "value") == Num(Corrected(Lower(keys[i]), Field(h, d, "value").n))
    decreases |keys|
  {
    var d0 := DescriptorOf(h, props, keys[0]);
    assert IsObject(h, Field(h, props, keys[0]));
    var h1 := if Field(h, d0, "value").Num?
              then h[d0 := Put(h[d0], "value", Num(Corrected(Lower(keys[0]), Field(h, d0, "value").n)))]
              else h;
    if Field(h, d0, "value").Num? {
      DefineEntriesStep(h, props, keys);
    }
    assert DefineEntries(h, props, keys) == DefineEntries(h1, props, keys[1..]);
    SeparateAfterStep(h, h1, props, keys, d0);
    if i == 0 {
      DefineEntriesFrame(h1, props, keys[1..], d0);
    } else {
      var d := DescriptorOf(h, props, keys[i]);
      assert d != d0;
      assert DescriptorOf(h1, props, keys[1..][i - 1]) == d;
      DefineEntriesApply(h1, props, keys[1..], i - 1);
    }
  }

  /**
   * `Object.defineProperties(obj, props)` with separate, writable descriptors
   * hands each numeric `value` on corrected and does not throw.
   */
  lemma DefinePropertiesApply(h: Heap, props: Value, i: nat)
    requires IsObject(h, props) && SeparateDescriptors(h, props.id, h[props.id].keys)
    requires i < |h[props.id].keys|
    requires Field(h, DescriptorOf(h, props.id, h[props.id].keys[i]), "value").Num?
    ensures var r := DefinePropertiesHook(h, props);
            var k := h[props.id].keys[i];
            var d := DescriptorOf(h, props.id, k);
            !r.threw && Field(r.heap, d, "value") == Num(Corrected(Lower(k), Field(h, d, "value").n))
  {
    DefineEntriesApply(h, props.id, h[props.id].keys, i);
  }

  /**
   * `defineProperties` applies the numeric rules only: string values, and so
   * HDCP strings, reach the original definer as they were.
   */
  lemma DefinePropertiesNoHdcp(h: Heap, props: Value, d: nat)
    requires d in h && "value" in h[d].fields && h[d].fields["value"].Str?
    ensures var r := DefinePropertiesHook(h, props);
            d in r.heap && "value" in r.heap[d].fields && r.heap[d].fields["value"] == h[d].fields["value"]
  {
    if IsObject(h, props) {
      DefineEntriesRaises(h, props.id, h[props.id].keys);
    }
  }

  /** `defineProperties` changes nothing when no entry's rule fires. */
  lemma DefinePropertiesTransparent(h: Heap, props: Value)
    requires IsObject(h, props)
    requires forall k :: k in h[props.id].keys ==>
               var desc := Field(h, props.id, k);
               !(IsObject(h, desc) && Field(h, desc.id, "value").Num? &&
                 NumberRule(Lower(k), Field(h, desc.id, "value").n).Some?)
    ensures DefinePropertiesHook(h, props) == Defined(h, false)
  {
    NoRuleNoChange(h, props.id, h[props.id].keys);
  }

  lemma {:induction false} NoRuleNoChange(h: Heap, props: nat, keys: seq<string>)
    requires forall k :: k in keys ==>
               var desc := Field(h, props, k);
               !(IsObject(h, desc) && Field(h, desc.id, "value").Num? &&
                 NumberRule(Lower(k), Field(h, desc.id, "value").n).Some?)
    ensures DefineEntries(h, props, keys) == Defined(h, false)
    decreases |keys|
  {
    if keys != [] {
      assert keys[0] in keys;
      NoRuleNoChange(h, props, keys[1..]);
    }
  }
}
