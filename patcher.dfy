/**
 * The deep config patcher as the page runs it: one object graph that every
 * hook rewrites in place, and the `_patched` WeakSet that `patchConfigValues`
 * fills as it goes. Each method is proved to leave exactly the state the
 * functions of `Walk` and `Interception` describe, so every property proved
 * about those functions holds of the page's graph.
 */
module Patcher {
  import opened Wrappers
  import opened Strings
  import opened Values
  import opened Classifier
  import opened Walk
  import opened Interception

  class ConfigPatcher {
    /** The page's plain objects. */
    var heap: Heap
    /** The `_patched` WeakSet: ids of objects `patchConfigValues` has entered. */
    var patched: set<nat>

    /** The graph and the WeakSet as one value. */
    function Current(): State
      reads this
    {
      State(heap, patched)
    }

    constructor Load(h: Heap)
      ensures heap == h && patched == {}
    {
      heap := h;
      patched := {};
    }

    /** `obj[key] = v` inside a `try`: `false` is the `TypeError` of a frozen object. */
    method Assign(id: nat, key: string, v: Value) returns (ok: bool)
      requires id in heap
      modifies this
      ensures ok <==> SetField(old(heap), id, key, v).Some?
      ensures ok ==> Some(heap) == SetField(old(heap), id, key, v)
      ensures !ok ==> heap == old(heap)
      ensures patched == old(patched)
    {
      if heap[id].frozen {
        return false;
      }
      heap := heap[id := Put(heap[id], key, v)];
      return true;
    }

    /** The resolution rule on object `c`; `false` when a write threw. */
    method RaiseResolution(c: nat) returns (ok: bool)
      requires c in heap
      modifies this
      ensures ok ==> Walk.RaiseResolution(old(heap), c) == Some(heap)
      ensures !ok ==> Walk.RaiseResolution(old(heap), c).None? && heap == old(heap)
      ensures patched == old(patched)
    {
      ok := true;
      var w := Field(heap, c, "width");
      if w.Num? && w.n < TargetWidth {
        ok := Assign(c, "width", Num(TargetWidth));
        if !ok {
          return;
        }
      }
      var ht := Field(heap, c, "height");
      if ht.Num? && ht.n < TargetHeight {
        ok := Assign(c, "height", Num(TargetHeight));
      }
    }

    /** `patchConfigValues(obj, depth)` on the object `id`. */
    method PatchObject(id: nat, depth: nat)
      modifies this
      ensures Current() == Walk.Walk(old(Current()), id, depth)
      decreases MaxDepth + 1 - depth, 1
    {
      if depth > MaxDepth || id !in heap || id in patched {
        return;
      }
      patched := patched + {id};
      var keys := heap[id].keys;
      var i := 0;
      while i < |keys|
        invariant 0 <= i <= |keys|
        invariant WalkKeys(Current(), id, keys[i..], depth) == Walk.Walk(old(Current()), id, depth)
      {
        assert keys[i..][1..] == keys[i + 1..];
        PatchKey(id, keys[i], depth);
        i := i + 1;
      }
    }

    /** One iteration of the key loop. */
    method PatchKey(id: nat, key: string, depth: nat)
      requires depth <= MaxDepth
      modifies this
      ensures Current() == KeyStep(old(Current()), id, key, depth)
      decreases MaxDepth + 1 - depth, 0
    {
      var lk := Lower(key);
      if id !in heap || IsAudioKey(lk) {
        return;
      }
      var v := Field(heap, id, key);
      if v.Ref? {
        if v.id !in heap {
          return;
        }
        if IsResolutionKey(lk) {
          var ok := RaiseResolution(v.id);
          if ok {
            PatchObject(v.id, depth + 1);
          }
        } else {
          PatchObject(v.id, depth + 1);
        }
      } else {
        var w := ValueRule(lk, v);
        if w.Some? {
          var _ := Assign(id, key, w.value);
        }
      }
    }

    /** `patchConfigValues(v, depth)` on any value; an array's elements are walked one level down. */
    method PatchValue(v: Value, depth: nat)
      modifies this
      ensures Current() == Patch(old(Current()), v, depth)
    {
      if v.Ref? {
        PatchObject(v.id, depth);
      } else if v.Arr? && depth <= MaxDepth {
        var items := v.items;
        var i := 0;
        while i < |items|
          invariant 0 <= i <= |items|
          invariant WalkElements(Current(), items[i..], depth) == Patch(old(Current()), v, depth)
        {
          assert items[i..][1..] == items[i + 1..];
          if items[i].Ref? {
            PatchObject(items[i].id, depth + 1);
          }
          i := i + 1;
        }
      }
    }

    /** The `Object.assign` hook on the merged `result`. */
    method AssignHook(result: Value)
      modifies this
      ensures Current() == Interception.AssignHook(old(Current()), result)
    {
      if IsObject(heap, result) && AssignTrigger(heap[result.id].keys) {
        PatchValue(result, 0);
      }
    }

    /** The `JSON.parse` hook on the parsed `result`; `threw` is the `TypeError` it lets escape. */
    method ParseHook(result: Value) returns (threw: bool)
      modifies this
      ensures ParseResult(Current(), threw) == Interception.ParseHook(old(Current()), result)
    {
      threw := false;
      if !IsObject(heap, result) {
        return;
      }
      if ParseTrigger(heap[result.id].keys) {
        PatchValue(result, 0);
      }
      if Truthy(heap, Field(heap, result.id, "maxResolution")) {
        var nid := NewId(heap);
        heap := heap[nid := MaxResolutionRecord];
        var ok := Assign(result.id, "maxResolution", Ref(nid));
        threw := !ok;
      }
    }

    /** "Inject 4K profiles" on the root of a request. */
    method InjectProfiles(root: Value) returns (modified: bool, threw: bool)
      modifies this
      ensures Outcome(heap, modified, threw) == ProfilesStep(old(heap), root)
      ensures patched == old(patched)
    {
      modified, threw := false, false;
      if HasArray(heap, root, "profiles") {
        var items := Field(heap, root.id, "profiles").items;
        if MissingProfiles(items) != [] {
          var ok := Assign(root.id, "profiles", Arr(MergeProfiles(items)));
          modified, threw := ok, !ok;
        }
      }
    }

    /** "Ensure HDCP 2.2": the loop over the root's `videoOutputInfo`. */
    method EnsureHdcp(root: Value, modified0: bool) returns (modified: bool, threw: bool)
      modifies this
      ensures Outcome(heap, modified, threw) == HdcpStep(old(heap), root, modified0)
      ensures patched == old(patched)
    {
      modified, threw := modified0, false;
      if !HasArray(heap, root, "videoOutputInfo") {
        return;
      }
      var items := Field(heap, root.id, "videoOutputInfo").items;
      var i := 0;
      while i < |items|
        invariant 0 <= i <= |items|
        invariant patched == old(patched)
        invariant HdcpItems(heap, items[i..], modified) == HdcpStep(old(heap), root, modified0)
      {
        assert items[i..][1..] == items[i + 1..];
        var x := items[i];
        if x.Arr? {
          modified := true;
        } else if IsObject(heap, x) {
          var ok := Assign(x.id, "supportedHdcpVersions", Arr(HdcpVersions));
          if !ok {
            threw := true;
            return;
          }
          ok := Assign(x.id, "isHdcpEngaged", Bool(true));
          modified := true;
        }
        i := i + 1;
      }
    }

    /** The body of the serialization hooks' `try` on the root `root`. */
    method RewriteRequest(root: Value) returns (modified: bool, threw: bool)
      modifies this
      ensures Rewrite(Current(), modified, threw) == Interception.RewriteRequest(old(Current()), root)
    {
      modified, threw := InjectProfiles(root);
      if threw {
        return;
      }
      modified, threw := EnsureHdcp(root, modified);
      if threw {
        return;
      }
      PatchValue(root, 0);
    }

    /** The `JSON.stringify` hook; `stringify` is the original serializer. */
    method StringifyHook(value: Value, stringify: (Heap, Value) -> string) returns (text: string)
      modifies this
      ensures Serialized(Current(), text) == Interception.StringifyHook(old(Current()), value, stringify)
    {
      text := stringify(heap, value);
      if !IsObjectLike(heap, value) || !StringifyGate(text) {
        return;
      }
      var modified, threw := RewriteRequest(value);
      if !threw && modified {
        text := stringify(heap, value);
      }
    }

    /** The `Object.defineProperties` hook's loop over the descriptors of `props`. */
    method DefinePropertiesHook(props: Value) returns (threw: bool)
      modifies this
      ensures Defined(heap, threw) == Interception.DefinePropertiesHook(old(heap), props)
      ensures patched == old(patched)
    {
      threw := false;
      if !IsObject(heap, props) {
        return;
      }
      var keys := heap[props.id].keys;
      var i := 0;
      while i < |keys|
        invariant 0 <= i <= |keys|
        invariant patched == old(patched)
        invariant DefineEntries(heap, props.id, keys[i..]) == Interception.DefinePropertiesHook(old(heap), props)
      {
        assert keys[i..][1..] == keys[i + 1..];
        var desc := Field(heap, props.id, keys[i]);
        if IsObject(heap, desc) && Field(heap, desc.id, "value").Num? {
          var t := NumberRule(Lower(keys[i]), Field(heap, desc.id, "value").n);
          if t.Some? {
            var ok := Assign(desc.id, "value", Num(t.value));
            if !ok {
              threw := true;
              return;
            }
          }
        }
        i := i + 1;
      }
    }
  }
}
