/**
 * The deep config patcher `patchConfigValues` as a function on the heap and
 * the visited set `_patched` (inject.js:275-341). The methods of
 * `Patcher.ConfigPatcher` perform the same walk in place and are proved equal
 * to these functions.
 */
module Walk {
  import opened Wrappers
  import opened Strings
  import opened Values
  import opened Classifier

  /** The object graph and the module-level visited set, which is never cleared. */
  datatype State = State(heap: Heap, visited: set<nat>)

  /** The deepest level the walk processes (`depth > 5` returns at once). */
  const MaxDepth: nat := 5

  /** `obj[key] = v` inside the per-key `try`: a write that throws leaves the state as it was. */
  function Write(s: State, id: nat, key: string, v: Value): (r: State)
    requires id in s.heap
    ensures r.visited == s.visited && r.heap.Keys == s.heap.Keys
    ensures s.heap[id].frozen ==> r == s
    ensures !s.heap[id].frozen ==> r.heap == s.heap[id := Put(s.heap[id], key, v)]
  {
    match SetField(s.heap, id, key, v)
    case None => s
    case Some(h) => State(h, s.visited)
  }

  /**
   * The resolution rule on the object `c` a resolution-named property holds
   * (inject.js:321-324): a numeric `width` below 3840 becomes 3840, then a
   * numeric `height` below 2160 becomes 2160. `None` is the `TypeError` of a
   * write to a frozen object, which abandons the rest of the key.
   */
  function RaiseResolution(h: Heap, c: nat): (r: Option<Heap>)
    requires c in h
    ensures r.Some? ==> r.value.Keys == h.Keys
    ensures r.None? ==> h[c].frozen
    ensures r.Some? && h[c].frozen ==> r.value == h
  {
    var h1 :=
      match Field(h, c, "width")
      case Num(w) => if w < TargetWidth then SetField(h, c, "width", Num(TargetWidth)) else Some(h)
      case _ => Some(h);
    match h1
    case None => None
    case Some(h2) =>
      match Field(h2, c, "height")
      case Num(ht) => if ht < TargetHeight then SetField(h2, c, "height", Num(TargetHeight)) else Some(h2)
      case _ => Some(h2)
  }

  /**
   * The rules for a property whose value is not an object (inject.js:294-333):
   * the value they write under the lower-cased name `lk`, or `None` when no
   * rule writes.
   */
  function ValueRule(lk: string, v: Value): (r: Option<Value>)
    ensures r.Some? ==> FieldRaised(lk, v, r.value)
  {
    if IsAudioKey(lk) then None
    else match v
    case Num(n) =>
      (match NumberRule(lk, n)
       case None => None
       case Some(t) => Some(Num(t)))
    case Str(_) => if IsHdcpKey(lk) then Some(Str("2.2")) else None
    case Arr(items) =>
      if IsProfilesKey(lk) && MissingProfiles(items) != [] then
        Some(Arr(MergeProfiles(items)))
      else None
    case _ => None
  }

  /**
   * `patchConfigValues(obj, depth)` for the object `id`: nothing past depth 5,
   * nothing for an object already visited; otherwise the object is marked
   * visited and its keys, as `Object.keys` listed them on entry, are
   * processed in order.
   */
  function Walk(s: State, id: nat, depth: nat): (r: State)
    ensures r.heap.Keys == s.heap.Keys
    ensures s.visited <= r.visited <= s.visited + s.heap.Keys
    ensures id in s.heap && depth <= MaxDepth ==> id in r.visited
    decreases MaxDepth + 1 - depth, 2, 0
  {
    if depth > MaxDepth || id !in s.heap || id in s.visited then s
    else WalkKeys(State(s.heap, s.visited + {id}), id, s.heap[id].keys, depth)
  }

  /** The `for (const key of keys)` loop. */
  function WalkKeys(s: State, id: nat, keys: seq<string>, depth: nat): (r: State)
    requires depth <= MaxDepth
    ensures r.heap.Keys == s.heap.Keys
    ensures s.visited <= r.visited <= s.visited + s.heap.Keys
    decreases MaxDepth + 1 - depth, 1, |keys|
  {
    if keys == [] then s
    else WalkKeys(KeyStep(s, id, keys[0], depth), id, keys[1..], depth)
  }

  /**
   * One iteration of the loop: the rules for the value the property holds
   * now, then the recursion into a nested non-array object. A rule whose
   * write throws abandons the key (the `catch(e) {}`).
   */
  function KeyStep(s: State, id: nat, key: string, depth: nat): (r: State)
    requires depth <= MaxDepth
    ensures r.heap.Keys == s.heap.Keys
    ensures s.visited <= r.visited <= s.visited + s.heap.Keys
    decreases MaxDepth + 1 - depth, 0, 0
  {
    var lk := Lower(key);
    if id !in s.heap || IsAudioKey(lk) then s
    else
      var v := Field(s.heap, id, key);
      if v.Ref? then
        if v.id !in s.heap then s
        else if IsResolutionKey(lk) then
          (match RaiseResolution(s.heap, v.id)
           case None => s
           case Some(h) => Walk(State(h, s.visited), v.id, depth + 1))
        else Walk(s, v.id, depth + 1)
      else
        var w := ValueRule(lk, v);
        if w.Some? then Write(s, id, key, w.value) else s
  }

  /**
   * `patchConfigValues(v, depth)` on an arbitrary value. An array is an
   * object too: its index properties are walked, which recurses into each
   * element that is a non-array object. Index names match no rule.
   */
  function Patch(s: State, v: Value, depth: nat): (r: State)
    ensures r.heap.Keys == s.heap.Keys
    ensures s.visited <= r.visited <= s.visited + s.heap.Keys
  {
    match v
    case Ref(id) => Walk(s, id, depth)
    case Arr(items) => if depth > MaxDepth then s else WalkElements(s, items, depth)
    case _ => s
  }

  function WalkElements(s: State, items: seq<Value>, depth: nat): (r: State)
    ensures r.heap.Keys == s.heap.Keys
    ensures s.visited <= r.visited <= s.visited + s.heap.Keys
    decreases |items|
  {
    if items == [] then s
    else
      var s1 := if items[0].Ref? then Walk(s, items[0].id, depth + 1) else s;
      WalkElements(s1, items[1..], depth)
  }

  // ---------------------------------------------------------------------
  // What the walk may change
  // ---------------------------------------------------------------------

  /** `t` is the target of a numeric rule that applies to the lower-cased name `lk`. */
  predicate IsTarget(lk: string, t: int)
  {
    (t == TargetBitrate && IsBitrateKey(lk)) ||
    (t == TargetHeight && (IsHeightKey(lk) || lk == "height")) ||
    (t == TargetWidth && (IsWidthKey(lk) || lk == "width"))
  }

  /**
   * The changes a property with lower-cased name `lk` may undergo: none, or
   * (for a non-audio name) a number raised to a target of its family, an
   * HDCP string set to "2.2", or a profile list completed by the merge. The
   * names `width` and `height` are the ones the resolution rule writes.
   */
  predicate FieldRaised(lk: string, o: Value, n: Value)
  {
    o == n ||
    (!IsAudioKey(lk) &&
     ((o.Num? && n.Num? && o.n < n.n && IsTarget(lk, n.n)) ||
      (o.Str? && n == Str("2.2") && IsHdcpKey(lk)) ||
      (o.Arr? && IsProfilesKey(lk) && n == Arr(MergeProfiles(o.items)))))
  }

  /** A record keeps its keys, their order and its frozen flag; a frozen record does not change at all. */
  predicate RecordRaised(r: Record, r': Record)
  {
    r'.keys == r.keys && r'.frozen == r.frozen && r'.fields.Keys == r.fields.Keys &&
    (r.frozen ==> r' == r) &&
    forall k :: k in r.fields ==> FieldRaised(Lower(k), r.fields[k], r'.fields[k])
  }

  predicate Raised(h: Heap, h': Heap)
  {
    h'.Keys == h.Keys && forall id :: id in h ==> RecordRaised(h[id], h'[id])
  }

  lemma RaisedRefl(h: Heap)
    ensures Raised(h, h)
  {
  }

  lemma FieldRaisedTrans(lk: string, a: Value, b: Value, c: Value)
    requires FieldRaised(lk, a, b) && FieldRaised(lk, b, c)
    ensures FieldRaised(lk, a, c)
  {
    if a.Arr? {
      MergeProfilesSpec(a.items);
    }
  }

  lemma RaisedTrans(h1: Heap, h2: Heap, h3: Heap)
    requires Raised(h1, h2) && Raised(h2, h3)
    ensures Raised(h1, h3)
  {
    forall id, k | id in h1 && k in h1[id].fields
      ensures FieldRaised(Lower(k), h1[id].fields[k], h3[id].fields[k])
    {
      FieldRaisedTrans(Lower(k), h1[id].fields[k], h2[id].fields[k], h3[id].fields[k]);
    }
  }

  /** A single write of an allowed change. */
  lemma SetFieldRaises(h: Heap, id: nat, k: string, v: Value)
    requires id in h && k in h[id].fields && FieldRaised(Lower(k), h[id].fields[k], v)
    ensures SetField(h, id, k, v).Some? ==> Raised(h, SetField(h, id, k, v).value)
  {
    if !h[id].frozen {
      var h' := h[id := Put(h[id], k, v)];
      assert h'[id].fields == h[id].fields[k := v];
      assert h'[id].keys == h[id].keys;
      forall j | j in h
        ensures RecordRaised(h[j], h'[j])
      {
        if j == id {
          forall k' | k' in h[j].fields
            ensures FieldRaised(Lower(k'), h[j].fields[k'], h'[j].fields[k'])
          {
            if k' != k {
              assert h'[j].fields[k'] == h[j].fields[k'];
            }
          }
        } else {
          assert h'[j] == h[j];
        }
      }
    }
  }

  /** The names the resolution rule writes are not audio names. */
  lemma ResolutionNames()
    ensures Lower("width") == "width" && Lower("height") == "height"
    ensures !IsAudioKey("width") && !IsAudioKey("height")
  {
    MissingChar("width", "audio", 0);
    MissingChar("height", "audio", 0);
  }

  lemma RaiseResolutionRaises(h: Heap, c: nat)
    requires c in h
    ensures RaiseResolution(h, c).Some? ==> Raised(h, RaiseResolution(h, c).value)
  {
    ResolutionNames();
    var h1 :=
      match Field(h, c, "width")
      case Num(w) => if w < TargetWidth then SetField(h, c, "width", Num(TargetWidth)) else Some(h)
      case _ => Some(h);
    if Field(h, c, "width").Num? && Field(h, c, "width").n < TargetWidth {
      SetFieldRaises(h, c, "width", Num(TargetWidth));
    } else {
      RaisedRefl(h);
    }
    if h1.Some? {
      HeightStepRaises(h, h1.value, c);
    }
  }

  /** The height half of `RaiseResolution` keeps a heap raised. */
  lemma HeightStepRaises(h: Heap, h2: Heap, c: nat)
    requires c in h && Raised(h, h2)
    requires Lower("height") == "height" && !IsAudioKey("height")
    ensures var r := match Field(h2, c, "height")
                     case Num(ht) => if ht < TargetHeight then SetField(h2, c, "height", Num(TargetHeight)) else Some(h2)
                     case _ => Some(h2);
            r.Some? ==> Raised(h, r.value)
  {
    if Field(h2, c, "height").Num? && Field(h2, c, "height").n < TargetHeight {
      SetFieldRaises(h2, c, "height", Num(TargetHeight));
      if SetField(h2, c, "height", Num(TargetHeight)).Some? {
        RaisedTrans(h, h2, SetField(h2, c, "height", Num(TargetHeight)).value);
      }
    }
  }

  /**
   * On a writable sub-object the resolution rule succeeds: a numeric `width`
   * below 3840 becomes 3840, a numeric `height` below 2160 becomes 2160, and
   * no other object changes.
   */
  lemma RaiseResolutionApplies(h: Heap, c: nat)
    requires c in h && !h[c].frozen
    ensures var r := RaiseResolution(h, c);
            r.Some? &&
            (Field(h, c, "width").Num? && Field(h, c, "width").n < TargetWidth ==>
               Field(r.value, c, "width") == Num(TargetWidth)) &&
            (Field(h, c, "height").Num? && Field(h, c, "height").n < TargetHeight ==>
               Field(r.value, c, "height") == Num(TargetHeight)) &&
            forall id :: id in h && id != c ==> r.value[id] == h[id]
  {
  }

  /** The resolution targets are final for their names: no rule raises `width` past 3840 or `height` past 2160. */
  lemma ResolutionTargetsFinal(t: int)
    ensures TargetWidth < t ==> !IsTarget("width", t)
    ensures TargetHeight < t ==> !IsTarget("height", t)
  {
    MissingChar("width", "bitrate", 0);
    MissingChar("width", "bandwidth", 0);
    MissingChar("width", "height", 1);
    MissingChar("height", "bitrate", 0);
    MissingChar("height", "bandwidth", 0);
    MissingChar("height", "width", 0);
  }

  /**
   * The step for a resolution-named key holding a writable object: whatever
   * the walk below it does afterwards, a numeric `width` below 3840 ends at
   * 3840 and a numeric `height` below 2160 ends at 2160.
   */
  lemma KeyStepResolution(s: State, id: nat, key: string, depth: nat)
    requires depth <= MaxDepth && id in s.heap
    requires !IsAudioKey(Lower(key)) && IsResolutionKey(Lower(key))
    requires IsObject(s.heap, Field(s.heap, id, key)) && !s.heap[Field(s.heap, id, key).id].frozen
    ensures var c := Field(s.heap, id, key).id;
            var r := KeyStep(s, id, key, depth);
            (Field(s.heap, c, "width").Num? && Field(s.heap, c, "width").n < TargetWidth ==>
               Field(r.heap, c, "width") == Num(TargetWidth)) &&
            (Field(s.heap, c, "height").Num? && Field(s.heap, c, "height").n < TargetHeight ==>
               Field(r.heap, c, "height") == Num(TargetHeight))
  {
    var c := Field(s.heap, id, key).id;
    RaiseResolutionApplies(s.heap, c);
    var h1 := RaiseResolution(s.heap, c).value;
    assert KeyStep(s, id, key, depth) == Walk(State(h1, s.visited), c, depth + 1);
    var h2 := Walk(State(h1, s.visited), c, depth + 1).heap;
    WalkRaises(State(h1, s.visited), c, depth + 1);
    ResolutionNames();
    forall x | TargetWidth < x ensures !IsTarget("width", x) { ResolutionTargetsFinal(x); }
    forall x | TargetHeight < x ensures !IsTarget("height", x) { ResolutionTargetsFinal(x); }
    if Field(s.heap, c, "width").Num? && Field(s.heap, c, "width").n < TargetWidth {
      TargetFieldStays(h1, h2, c, "width", TargetWidth);
    }
    if Field(s.heap, c, "height").Num? && Field(s.heap, c, "height").n < TargetHeight {
      TargetFieldStays(h1, h2, c, "height", TargetHeight);
    }
  }

  /** A number no rule of its name raises further is kept by any allowed change. */
  lemma TargetFieldStays(h1: Heap, h2: Heap, c: nat, k: string, t: int)
    requires Raised(h1, h2) && c in h1 && Field(h1, c, k) == Num(t) && Lower(k) == k
    requires forall x :: t < x ==> !IsTarget(k, x)
    ensures Field(h2, c, k) == Num(t)
  {
    assert RecordRaised(h1[c], h2[c]);
    assert FieldRaised(Lower(k), h1[c].fields[k], h2[c].fields[k]);
  }

  /** The walk makes only allowed changes (and so never touches a frozen object or an audio property). */
  lemma {:induction false} WalkRaises(s: State, id: nat, depth: nat)
    ensures Raised(s.heap, Walk(s, id, depth).heap)
    decreases MaxDepth + 1 - depth, 2, 0
  {
    if depth > MaxDepth || id !in s.heap || id in s.visited {
      RaisedRefl(s.heap);
    } else {
      WalkKeysRaises(State(s.heap, s.visited + {id}), id, s.heap[id].keys, depth);
    }
  }

  lemma {:induction false} WalkKeysRaises(s: State, id: nat, keys: seq<string>, depth: nat)
    requires depth <= MaxDepth
    ensures Raised(s.heap, WalkKeys(s, id, keys, depth).heap)
    decreases MaxDepth + 1 - depth, 1, |keys|
  {
    if keys == [] {
      RaisedRefl(s.heap);
    } else {
      var s1 := KeyStep(s, id, keys[0], depth);
      KeyStepRaises(s, id, keys[0], depth);
      WalkKeysRaises(s1, id, keys[1..], depth);
      RaisedTrans(s.heap, s1.heap, WalkKeys(s1, id, keys[1..], depth).heap);
    }
  }

  lemma {:induction false} KeyStepRaises(s: State, id: nat, key: string, depth: nat)
    requires depth <= MaxDepth
    ensures Raised(s.heap, KeyStep(s, id, key, depth).heap)
    decreases MaxDepth + 1 - depth, 0, 0
  {
    var lk := Lower(key);
    RaisedRefl(s.heap);
    if id in s.heap && !IsAudioKey(lk) {
      var v := Field(s.heap, id, key);
      if v.Ref? && v.id in s.heap {
        var c := v.id;
        if IsResolutionKey(lk) {
          RaiseResolutionRaises(s.heap, c);
          match RaiseResolution(s.heap, c)
          case None =>
          case Some(h) =>
            WalkRaises(State(h, s.visited), c, depth + 1);
            RaisedTrans(s.heap, h, Walk(State(h, s.visited), c, depth + 1).heap);
        } else {
          WalkRaises(s, c, depth + 1);
        }
      } else if !v.Ref? && ValueRule(lk, v).Some? {
        SetFieldRaises(s.heap, id, key, ValueRule(lk, v).value);
      }
    }
  }

  lemma {:induction false} WalkElementsRaises(s: State, items: seq<Value>, depth: nat)
    ensures Raised(s.heap, WalkElements(s, items, depth).heap)
    decreases |items|
  {
    if items == [] {
      RaisedRefl(s.heap);
    } else {
      var s1 := if items[0].Ref? then Walk(s, items[0].id, depth + 1) else s;
      if items[0].Ref? {
        WalkRaises(s, items[0].id, depth + 1);
      } else {
        RaisedRefl(s.heap);
      }
      WalkElementsRaises(s1, items[1..], depth);
      RaisedTrans(s.heap, s1.heap, WalkElements(s1, items[1..], depth).heap);
    }
  }

  /** `patchConfigValues` on any value makes only allowed changes. */
  lemma PatchRaises(s: State, v: Value, depth: nat)
    ensures Raised(s.heap, Patch(s, v, depth).heap)
  {
    match v
    case Ref(id) => WalkRaises(s, id, depth);
    case Arr(items) =>
      if depth > MaxDepth {
        RaisedRefl(s.heap);
      } else {
        WalkElementsRaises(s, items, depth);
      }
    case _ => RaisedRefl(s.heap);
  }

  /** Properties with an audio name keep their value. */
  lemma AudioFieldsUnchanged(h: Heap, h': Heap, id: nat, k: string)
    requires Raised(h, h') && id in h && k in h[id].fields && IsAudioKey(Lower(k))
    ensures h'[id].fields[k] == h[id].fields[k]
  {
  }

  /** Numeric properties with "min" in their name keep their value. */
  lemma MinFieldsUnchanged(h: Heap, h': Heap, id: nat, k: string)
    requires Raised(h, h') && id in h && k in h[id].fields && h[id].fields[k].Num?
    requires Contains(Lower(k), "min")
    ensures h'[id].fields[k] == h[id].fields[k]
  {
    MissingChar("width", "min", 2);
    MissingChar("height", "min", 0);
    ResolutionNames();
  }

  /** A numeric property only grows, and only up to a target value. */
  lemma NumbersOnlyRise(h: Heap, h': Heap, id: nat, k: string)
    requires Raised(h, h') && id in h && k in h[id].fields && h[id].fields[k].Num?
    ensures h'[id].fields[k].Num? && h'[id].fields[k].n >= h[id].fields[k].n
    ensures h'[id].fields[k] != h[id].fields[k] ==>
              h'[id].fields[k].n in {TargetBitrate, TargetHeight, TargetWidth}
  {
  }

  // ---------------------------------------------------------------------
  // The visited set
  // ---------------------------------------------------------------------

  /** A walk from an object already visited, or past depth 5, changes nothing. */
  lemma WalkSkips(s: State, id: nat, depth: nat)
    requires id in s.visited || depth > MaxDepth
    ensures Walk(s, id, depth) == s
  {
  }

  /** A second walk from the same root changes nothing: the root is in the visited set after the first. */
  lemma WalkTwice(s: State, id: nat, depth: nat)
    ensures Walk(Walk(s, id, depth), id, depth) == Walk(s, id, depth)
  {
    var r := Walk(s, id, depth);
    if id in s.heap && depth <= MaxDepth {
      assert id in r.visited;
    } else {
      assert r == s;
    }
  }

  /** A second `patchConfigValues` on the same value changes nothing. */
  lemma {:induction false} WalkElementsTwice(s: State, items: seq<Value>, depth: nat)
    requires forall i :: 0 <= i < |items| && items[i].Ref? ==> items[i].id in s.visited || items[i].id !in s.heap || depth + 1 > MaxDepth
    ensures WalkElements(s, items, depth) == s
  {
    if items != [] {
      WalkElementsTwice(s, items[1..], depth);
    }
  }

  lemma {:induction false} WalkElementsVisits(s: State, items: seq<Value>, depth: nat, i: nat)
    requires i < |items| && items[i].Ref? && items[i].id in s.heap && depth + 1 <= MaxDepth
    ensures items[i].id in WalkElements(s, items, depth).visited
    decreases i
  {
    var s1 := if items[0].Ref? then Walk(s, items[0].id, depth + 1) else s;
    if i > 0 {
      WalkElementsVisits(s1, items[1..], depth, i - 1);
    }
  }

  lemma PatchTwice(s: State, v: Value, depth: nat)
    ensures Patch(Patch(s, v, depth), v, depth) == Patch(s, v, depth)
  {
    match v
    case Ref(id) => WalkTwice(s, id, depth);
    case Arr(items) =>
      if depth <= MaxDepth {
        var r := WalkElements(s, items, depth);
        forall i | 0 <= i < |items| && items[i].Ref? && items[i].id in s.heap && depth + 1 <= MaxDepth
          ensures items[i].id in r.visited
        {
          WalkElementsVisits(s, items, depth, i);
        }
        WalkElementsTwice(r, items, depth);
      }
    case _ =>
  }

  // ---------------------------------------------------------------------
  // Idempotence of the per-key rules
  // ---------------------------------------------------------------------

  /** The value a non-object property holds after the per-key rules. */
  function Applied(lk: string, v: Value): Value
  {
    match ValueRule(lk, v)
    case None => v
    case Some(w) => w
  }

  /**
   * Applying the per-key rules to a value they already corrected changes
   * nothing: 16000, 2160 and 3840 fail the strict bounds, "2.2" is written
   * as itself and a completed profile list gets no additions. A name that
   * belongs to two numeric families is excluded (a height name that also
   * says bitrate is raised to 2160 and then to 16000).
   */
  lemma ValueRuleIdempotent(lk: string, v: Value)
    requires SingleFamily(lk)
    ensures ValueRule(lk, Applied(lk, v)).None? || ValueRule(lk, Applied(lk, v)) == Some(Applied(lk, v))
  {
    if v.Num? {
      NumberRuleIdempotent(lk, v.n);
    } else if v.Arr? {
      MergeProfilesSpec(v.items);
    }
  }

  /** The rules skip a property with an audio name: its value stays and the walk does not descend into it. */
  lemma AudioKeySkipped(s: State, id: nat, key: string, depth: nat)
    requires depth <= MaxDepth && IsAudioKey(Lower(key))
    ensures KeyStep(s, id, key, depth) == s
  {
  }

  /**
   * The exact effect of one key on a writable object whose property does
   * not hold an object: the property receives the rules' value (a number
   * becomes its corrected value), no other property of any object changes
   * and the visited set stays as it was.
   */
  lemma KeyStepApplies(s: State, id: nat, key: string, depth: nat)
    requires depth <= MaxDepth && id in s.heap && !s.heap[id].frozen
    requires !IsAudioKey(Lower(key)) && !Field(s.heap, id, key).Ref?
    ensures var r := KeyStep(s, id, key, depth);
      r.visited == s.visited &&
      Field(r.heap, id, key) == Applied(Lower(key), Field(s.heap, id, key)) &&
      (ValueRule(Lower(key), Field(s.heap, id, key)).None? ==> r == s) &&
      (ValueRule(Lower(key), Field(s.heap, id, key)).Some? ==>
         r.heap == s.heap[id := Put(s.heap[id], key, Applied(Lower(key), Field(s.heap, id, key)))])
    ensures Field(s.heap, id, key).Num? ==>
      Field(KeyStep(s, id, key, depth).heap, id, key) == Num(Corrected(Lower(key), Field(s.heap, id, key).n))
  {
    var v := Field(s.heap, id, key);
    var w := ValueRule(Lower(key), v);
    if w.Some? {
      assert KeyStep(s, id, key, depth) == Write(s, id, key, w.value);
    }
  }

  // ---------------------------------------------------------------------
  // The walk completes the profile lists it reaches
  // ---------------------------------------------------------------------

  /** A profile-list name is no audio name. */
  lemma ProfilesKeyNotAudio(lk: string)
    requires IsProfilesKey(lk)
    ensures !IsAudioKey(lk)
  {
    MissingChar(lk, "audio", 1);
  }

  /** A complete profile list stays complete under the changes the walk may make. */
  lemma CompleteStaysComplete(lk: string, o: Value, n: Value)
    requires o.Arr? && MissingProfiles(o.items) == [] && FieldRaised(lk, o, n)
    ensures n.Arr? && MissingProfiles(n.items) == []
  {
    MergeProfilesSpec(o.items);
  }

  /** The key step on a profile-list property of an unfrozen object leaves the list complete. */
  lemma KeyStepCompletes(s: State, id: nat, key: string, depth: nat)
    requires depth <= MaxDepth && id in s.heap && !s.heap[id].frozen
    requires IsProfilesKey(Lower(key)) && Field(s.heap, id, key).Arr?
    ensures var v := Field(KeyStep(s, id, key, depth).heap, id, key);
            v.Arr? && MissingProfiles(v.items) == []
  {
    ProfilesKeyNotAudio(Lower(key));
    MergeProfilesSpec(Field(s.heap, id, key).items);
  }

  /**
   * The key loop over a list that names a profile-list property of an
   * unfrozen object leaves that property holding every catalog entry.
   */
  lemma {:induction false} WalkKeysCompletes(s: State, id: nat, keys: seq<string>, key: string, depth: nat)
    requires depth <= MaxDepth && id in s.heap && !s.heap[id].frozen
    requires key in keys && IsProfilesKey(Lower(key)) && Field(s.heap, id, key).Arr?
    ensures var v := Field(WalkKeys(s, id, keys, depth).heap, id, key);
            v.Arr? && MissingProfiles(v.items) == []
    decreases |keys|
  {
    var s1 := KeyStep(s, id, keys[0], depth);
    var r := WalkKeys(s1, id, keys[1..], depth);
    KeyStepRaises(s, id, keys[0], depth);
    assert key in s.heap[id].fields;
    if keys[0] == key {
      KeyStepCompletes(s, id, key, depth);
      WalkKeysRaises(s1, id, keys[1..], depth);
      CompleteStaysComplete(Lower(key), Field(s1.heap, id, key), Field(r.heap, id, key));
    } else {
      assert key in keys[1..];
      WalkKeysCompletes(s1, id, keys[1..], key, depth);
    }
  }

  /**
   * Walking an unfrozen object not yet visited completes every profile-list
   * property among its own keys (inject.js:327-333).
   */
  lemma WalkCompletesProfiles(s: State, id: nat, key: string, depth: nat)
    requires depth <= MaxDepth && id in s.heap && id !in s.visited && !s.heap[id].frozen
    requires key in s.heap[id].keys && IsProfilesKey(Lower(key)) && Field(s.heap, id, key).Arr?
    ensures var v := Field(Walk(s, id, depth).heap, id, key);
            v.Arr? && MissingProfiles(v.items) == []
  {
    WalkKeysCompletes(State(s.heap, s.visited + {id}), id, s.heap[id].keys, key, depth);
  }
}
