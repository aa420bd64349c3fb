/**
 * The capability classifier of inject.js: which property names denote a
 * quality cap, and what a capped value is replaced with. Every predicate
 * takes the property name already lower-cased (`lk` in the source).
 */
module Classifier {
  import opened Wrappers
  import opened Strings
  import opened Values

  const TargetBitrate: int := 16000
  const TargetHeight: int := 2160
  const TargetWidth: int := 3840

  /** Audio-only properties are skipped by the deep patcher (inject.js:291). */
  predicate IsAudioKey(lk: string)
  {
    Contains(lk, "audio") && !Contains(lk, "video")
  }

  /** A bitrate or bandwidth cap that is not a minimum (inject.js:295). */
  predicate IsBitrateKey(lk: string)
  {
    (Contains(lk, "bitrate") || Contains(lk, "bandwidth")) && !Contains(lk, "min")
  }

  /** inject.js:296. */
  predicate IsAudioProp(lk: string)
  {
    lk == "abitrate" || Contains(lk, "audio")
  }

  /** A small value under a name that says neither video, max nor init is taken for audio (inject.js:297). */
  predicate IsLikelyAudio(lk: string, v: int)
  {
    v < 500 && !Contains(lk, "video") && !Contains(lk, "max") && !Contains(lk, "init")
  }

  /** The guard of the bitrate rule (inject.js:295-298). */
  predicate BitrateFires(lk: string, v: int)
  {
    IsBitrateKey(lk) && !IsAudioProp(lk) && !IsLikelyAudio(lk, v) && 0 < v < TargetBitrate
  }

  predicate IsHeightKey(lk: string)
  {
    Contains(lk, "height") && !Contains(lk, "min")
  }

  /** The guard of the height rule (inject.js:304). */
  predicate HeightFires(lk: string, v: int)
  {
    IsHeightKey(lk) && 720 <= v < TargetHeight
  }

  /** The width test as the source writes it, which also matches every "bandwidth" name (inject.js:309). */
  predicate IsWidthKeyAsWritten(lk: string)
  {
    Contains(lk, "width") && !Contains(lk, "min")
  }

  predicate WidthFiresAsWritten(lk: string, v: int)
  {
    IsWidthKeyAsWritten(lk) && 1280 <= v < TargetWidth
  }

  /** The width test with bandwidth names left to the bitrate rule. */
  predicate IsWidthKey(lk: string)
  {
    IsWidthKeyAsWritten(lk) && !Contains(lk, "bandwidth")
  }

  predicate WidthFires(lk: string, v: int)
  {
    IsWidthKey(lk) && 1280 <= v < TargetWidth
  }

  /**
   * The numeric rules exactly as inject.js:295-312 writes them: the three
   * guards are all tested on the value read before any write, and a later
   * write overwrites an earlier one. `None` means no rule writes.
   */
  function NumberRuleAsWritten(lk: string, v: int): (r: Option<int>)
    ensures r.Some? ==> v < r.value
  {
    if WidthFiresAsWritten(lk, v) then Some(TargetWidth)
    else if HeightFires(lk, v) then Some(TargetHeight)
    else if BitrateFires(lk, v) then Some(TargetBitrate)
    else None
  }

  /**
   * The numeric rules with the width rule kept off bandwidth names. This is
   * the rule set the rest of the model applies.
   */
  function NumberRule(lk: string, v: int): (r: Option<int>)
    ensures r.Some? ==> v < r.value
    ensures r.Some? ==> r.value == TargetBitrate || r.value == TargetHeight || r.value == TargetWidth
  {
    if WidthFires(lk, v) then Some(TargetWidth)
    else if HeightFires(lk, v) then Some(TargetHeight)
    else if BitrateFires(lk, v) then Some(TargetBitrate)
    else None
  }

  /** The value a numeric property holds after the rules. */
  function Corrected(lk: string, v: int): int
  {
    match NumberRule(lk, v)
    case Some(t) => t
    case None => v
  }

  /** An HDCP string is replaced by "2.2" (inject.js:316-317; `lk === 'hdcp'` is subsumed by the substring test). */
  predicate IsHdcpKey(lk: string)
  {
    Contains(lk, "hdcp")
  }

  /** The profile-list rule applies to exactly these two names (inject.js:327). */
  predicate IsProfilesKey(lk: string)
  {
    lk == "profiles" || lk == "videoprofiles"
  }

  /** The name of a property that the resolution rule reaches into (inject.js:321). */
  predicate IsResolutionKey(lk: string)
  {
    Contains(lk, "resolution")
  }

  // ---------------------------------------------------------------------
  // Guarantees of the numeric rules
  // ---------------------------------------------------------------------

  /** No rule touches a minimum, a non-positive value or a value already at the bitrate target. */
  lemma NumberRuleGuards(lk: string, v: int)
    ensures Contains(lk, "min") ==> NumberRule(lk, v).None?
    ensures v <= 0 ==> NumberRule(lk, v).None?
    ensures v >= TargetBitrate ==> NumberRule(lk, v).None?
    ensures Corrected(lk, v) >= v
  {
  }

  /**
   * The bitrate rule on a name that belongs to no other family: the value
   * becomes 16000 exactly when every guard holds, and is left unchanged
   * otherwise.
   */
  lemma BitrateOnly(lk: string, v: int)
    requires Contains(lk, "bitrate") || Contains(lk, "bandwidth")
    requires !Contains(lk, "height") && !IsWidthKey(lk)
    ensures NumberRule(lk, v) == Some(TargetBitrate) <==>
              !Contains(lk, "min") && lk != "abitrate" && !Contains(lk, "audio") &&
              !IsLikelyAudio(lk, v) && 0 < v < TargetBitrate
    ensures NumberRule(lk, v) != Some(TargetBitrate) ==> Corrected(lk, v) == v
  {
  }

  /** The height rule on a pure height name: 720 <= v < 2160 becomes 2160, anything else stays. */
  lemma HeightOnly(lk: string, v: int)
    requires Contains(lk, "height") && !Contains(lk, "min")
    requires !IsBitrateKey(lk) && !IsWidthKey(lk)
    ensures Corrected(lk, v) == (if 720 <= v < TargetHeight then TargetHeight else v)
  {
  }

  /** The width rule on a pure width name: 1280 <= v < 3840 becomes 3840, anything else stays. */
  lemma WidthOnly(lk: string, v: int)
    requires IsWidthKey(lk)
    requires !IsBitrateKey(lk) && !Contains(lk, "height")
    ensures Corrected(lk, v) == (if 1280 <= v < TargetWidth then TargetWidth else v)
  {
  }

  /** A name that belongs to at most one of the three numeric families. */
  predicate SingleFamily(lk: string)
  {
    (IsBitrateKey(lk) ==> !Contains(lk, "height") && !IsWidthKey(lk)) &&
    (Contains(lk, "height") ==> !IsWidthKey(lk))
  }

  /** A second application of the rules to a corrected value changes nothing. */
  lemma NumberRuleIdempotent(lk: string, v: int)
    requires SingleFamily(lk)
    ensures NumberRule(lk, Corrected(lk, v)).None?
  {
  }

  /**
   * For any name, three passes reach a value no rule changes: every firing
   * rule moves the value strictly up to one of the targets 2160 < 3840 <
   * 16000, and no rule fires on 16000.
   */
  lemma NumberRuleSettles(lk: string, v: int)
    ensures var c1 := Corrected(lk, v);
            var c2 := Corrected(lk, c1);
            c1 <= c2 && NumberRule(lk, Corrected(lk, c2)).None?
  {
  }

  /**
   * A name in two families is not settled after one pass, as written and in
   * the model alike: `maxHeightBitrate` 1000 is raised to 2160 by the height
   * rule, whose write comes after the bitrate rule's, and a second pass
   * raises that 2160 to 16000.
   */
  lemma MultiFamilyTwoPasses()
    ensures !SingleFamily("maxheightbitrate")
    ensures NumberRuleAsWritten("maxheightbitrate", 1000) == Some(TargetHeight)
    ensures NumberRuleAsWritten("maxheightbitrate", TargetHeight) == Some(TargetBitrate)
    ensures NumberRule("maxheightbitrate", 1000) == Some(TargetHeight)
    ensures NumberRule("maxheightbitrate", TargetHeight) == Some(TargetBitrate)
  {
    MaxHeightBitrateName();
  }

  /** How the rules classify the name `maxheightbitrate`: a height name and a bitrate name. */
  lemma MaxHeightBitrateName()
    ensures IsBitrateKey("maxheightbitrate") && IsHeightKey("maxheightbitrate")
    ensures !IsWidthKeyAsWritten("maxheightbitrate") && !IsAudioProp("maxheightbitrate")
  {
    var lk := "maxheightbitrate";
    ContainsAt(lk, "height", 3);
    ContainsAt(lk, "bitrate", 9);
    MaxHeightBitrateNegatives();
  }

  lemma MaxHeightBitrateNegatives()
    ensures !Contains("maxheightbitrate", "min") && !Contains("maxheightbitrate", "width")
    ensures !Contains("maxheightbitrate", "audio")
  {
    MissingChar("maxheightbitrate", "min", 2);
    MissingChar("maxheightbitrate", "width", 0);
    MissingChar("maxheightbitrate", "audio", 1);
  }

  /**
   * The rule the model applies agrees with the source's everywhere except
   * on a bandwidth name without "min" holding a number in [1280, 3840),
   * where the source's width write wins.
   */
  lemma RulesDiffer(lk: string, v: int)
    ensures NumberRuleAsWritten(lk, v) != NumberRule(lk, v) <==>
              Contains(lk, "bandwidth") && !Contains(lk, "min") && 1280 <= v < TargetWidth
    ensures NumberRuleAsWritten(lk, v) != NumberRule(lk, v) ==> NumberRuleAsWritten(lk, v) == Some(TargetWidth)
  {
    if Contains(lk, "bandwidth") {
      ContainsAt("bandwidth", "width", 4);
      ContainsTrans(lk, "bandwidth", "width");
    }
  }

  /** The bandwidth names follow the bitrate rule alone once the width rule leaves them be. */
  lemma BandwidthFollowsBitrate(lk: string, v: int)
    requires Contains(lk, "bandwidth") && !Contains(lk, "height")
    ensures NumberRule(lk, v) == (if BitrateFires(lk, v) then Some(TargetBitrate) else None)
    ensures NumberRule(lk, Corrected(lk, v)).None?
  {
  }

  /**
   * As written, "bandwidth" also matches the width test: a bandwidth of 2000
   * becomes 3840 instead of 16000, and a second pass turns that 3840 into
   * 16000.
   */
  lemma BandwidthShadowedAsWritten()
    ensures NumberRuleAsWritten("bandwidth", 2000) == Some(TargetWidth)
    ensures NumberRuleAsWritten("bandwidth", TargetWidth) == Some(TargetBitrate)
    ensures NumberRule("bandwidth", 2000) == Some(TargetBitrate)
  {
    BandwidthName();
  }

  /** How the rules classify the name `bandwidth`. */
  lemma BandwidthName()
    ensures IsBitrateKey("bandwidth") && IsWidthKeyAsWritten("bandwidth") && !IsWidthKey("bandwidth")
    ensures !Contains("bandwidth", "height") && !IsAudioProp("bandwidth")
  {
    var lk := "bandwidth";
    ContainsAt(lk, "bandwidth", 0);
    ContainsAt(lk, "width", 4);
    MissingChar(lk, "min", 0);
    BandwidthNegatives();
  }

  lemma BandwidthNegatives()
    ensures !Contains("bandwidth", "height") && !Contains("bandwidth", "audio")
  {
    MissingChar("bandwidth", "height", 1);
    MissingChar("bandwidth", "audio", 1);
  }

  /** How the rules classify the name `maxVideoBitrate`. */
  lemma MaxVideoBitrateName()
    ensures Lower("maxVideoBitrate") == "maxvideobitrate"
    ensures IsBitrateKey("maxvideobitrate") && !IsAudioProp("maxvideobitrate")
    ensures Contains("maxvideobitrate", "video")
  {
    var lk := "maxvideobitrate";
    ContainsAt(lk, "bitrate", 8);
    ContainsAt(lk, "video", 3);
    MaxVideoBitrateNegatives();
  }

  lemma MaxVideoBitrateNegatives()
    ensures !Contains("maxvideobitrate", "min") && !Contains("maxvideobitrate", "audio")
  {
    MissingChar("maxvideobitrate", "min", 2);
    MissingChar("maxvideobitrate", "audio", 1);
  }

  /** The bitrate examples: 5000 becomes 16000, 20000 and -1 stay. */
  lemma BitrateExamples()
    ensures Corrected(Lower("maxVideoBitrate"), 5000) == TargetBitrate
    ensures Corrected(Lower("maxVideoBitrate"), 20000) == 20000
    ensures Corrected(Lower("maxVideoBitrate"), -1) == -1
  {
    MaxVideoBitrateName();
    var lk := "maxvideobitrate";
    MissingChar(lk, "height", 0);
    MissingChar(lk, "width", 0);
  }

  /** The dimension examples: 1080 and 1920 are raised, 4000, 500 and 719 stay. */
  lemma DimensionExamples()
    ensures Corrected("height", 1080) == TargetHeight
    ensures Corrected("width", 1920) == TargetWidth
    ensures Corrected("height", 4000) == 4000
    ensures Corrected("height", 500) == 500
    ensures Corrected("height", 719) == 719
    ensures Corrected("width", 4000) == 4000
    ensures Corrected("width", 500) == 500
  {
    ContainsAt("height", "height", 0);
    ContainsAt("width", "width", 0);
    MissingChar("height", "min", 0);
    MissingChar("width", "min", 0);
    MissingChar("height", "bitrate", 0);
    MissingChar("height", "bandwidth", 0);
    MissingChar("width", "bitrate", 0);
    MissingChar("width", "bandwidth", 0);
    MissingChar("width", "height", 1);
    MissingChar("height", "width", 0);
  }

  // ---------------------------------------------------------------------
  // Profile catalog and the profile-list merge (inject.js:250-269, 327-333)
  // ---------------------------------------------------------------------

  const Catalog: seq<string> := [
    "hevc-main10-L51-dash-cenc-prk",
    "hevc-main10-L51-dash-cenc",
    "hevc-main10-L50-dash-cenc-prk",
    "hevc-main10-L50-dash-cenc",
    "hevc-main-L51-dash-cenc",
    "hevc-main-L50-dash-cenc",
    "vp9-profile2-L51-dash-cenc-prk",
    "vp9-profile2-L50-dash-cenc-prk",
    "vp9-profile0-L51-dash-cenc",
    "vp9-profile0-L50-dash-cenc",
    "av1-main-L51-dash-cbcs-prk",
    "av1-main-L50-dash-cbcs-prk",
    "playready-h264hpl40-dash",
    "playready-h264hpl41-dash"
  ]

  predicate Distinct<T(==)>(s: seq<T>)
  {
    forall i, j :: 0 <= i < j < |s| ==> s[i] != s[j]
  }

  /** `r` is `s` with some elements left out, the rest in their order in `s`. */
  predicate SubseqOf<T(==)>(r: seq<T>, s: seq<T>)
    decreases |s|
  {
    if r == [] then true
    else if s == [] then false
    else (r[0] == s[0] && SubseqOf(r[1..], s[1..])) || SubseqOf(r, s[1..])
  }

  /** `x` occurs in `s` before an occurrence of `y`. */
  predicate InOrder<T(==)>(s: seq<T>, x: T, y: T)
  {
    exists a, b :: 0 <= a < b < |s| && s[a] == x && s[b] == y
  }

  lemma {:induction false} SubseqMembers<T>(r: seq<T>, s: seq<T>, i: nat)
    requires SubseqOf(r, s) && i < |r|
    ensures r[i] in s
    decreases |s|
  {
    if r[0] == s[0] && SubseqOf(r[1..], s[1..]) {
      if i > 0 {
        SubseqMembers(r[1..], s[1..], i - 1);
      }
    } else {
      SubseqMembers(r, s[1..], i);
    }
  }

  /** The elements of a subsequence keep their relative order. */
  lemma {:induction false} SubseqOrder<T>(r: seq<T>, s: seq<T>)
    requires SubseqOf(r, s)
    ensures forall i, j :: 0 <= i < j < |r| ==> InOrder(s, r[i], r[j])
    decreases |s|
  {
    if r != [] {
      if r[0] == s[0] && SubseqOf(r[1..], s[1..]) {
        SubseqOrder(r[1..], s[1..]);
        forall i, j | 0 <= i < j < |r|
          ensures InOrder(s, r[i], r[j])
        {
          SubseqMembers(r[1..], s[1..], j - 1);
          if i == 0 {
            var b :| 0 <= b < |s[1..]| && s[1..][b] == r[j];
            assert s[0] == r[0] && s[b + 1] == r[j];
          } else {
            assert InOrder(s[1..], r[1..][i - 1], r[1..][j - 1]);
            var a, b :| 0 <= a < b < |s[1..]| && s[1..][a] == r[i] && s[1..][b] == r[j];
            assert s[a + 1] == r[i] && s[b + 1] == r[j];
          }
        }
      } else {
        SubseqOrder(r, s[1..]);
        forall i, j | 0 <= i < j < |r|
          ensures InOrder(s, r[i], r[j])
        {
          var a, b :| 0 <= a < b < |s[1..]| && s[1..][a] == r[i] && s[1..][b] == r[j];
          assert s[a + 1] == r[i] && s[b + 1] == r[j];
        }
      }
    }
  }

  /**
   * `cat.filter(p => !existing.has(p))` with `existing = new Set(items)`: the
   * entries of `cat` that `items` lacks, in their order in `cat`.
   */
  function MissingFrom(cat: seq<string>, items: seq<Value>): (r: seq<string>)
    ensures forall p :: p in r <==> p in cat && Str(p) !in items
    ensures SubseqOf(r, cat)
    ensures Distinct(cat) ==> Distinct(r)
  {
    if cat == [] then []
    else
      var rest := MissingFrom(cat[1..], items);
      assert Distinct(cat) ==> cat[0] !in cat[1..];
      if Str(cat[0]) in items then rest else [cat[0]] + rest
  }

  /** The catalog entries a profile list lacks, in catalog order (`toAdd`). */
  function MissingProfiles(items: seq<Value>): seq<string>
  {
    MissingFrom(Catalog, items)
  }

  /** Profile names as JavaScript strings. */
  function Strs(ps: seq<string>): (r: seq<Value>)
    ensures |r| == |ps| && forall i :: 0 <= i < |ps| ==> r[i] == Str(ps[i])
  {
    seq(|ps|, i requires 0 <= i < |ps| => Str(ps[i]))
  }

  /** `[...toAdd, ...val]`: the missing catalog names, then the page's own entries, kept in order. */
  function MergeProfiles(items: seq<Value>): (r: seq<Value>)
    ensures |r| == |MissingProfiles(items)| + |items| && r[|r| - |items|..] == items
  {
    Strs(MissingProfiles(items)) + items
  }

  lemma CatalogDistinct()
    ensures Distinct(Catalog)
  {
  }

  /** Nothing is missing from a list that already holds every catalog entry. */
  lemma {:induction false} NothingMissing(cat: seq<string>, items: seq<Value>)
    requires forall p :: p in cat ==> Str(p) in items
    ensures MissingFrom(cat, items) == []
  {
    if cat != [] {
      NothingMissing(cat[1..], items);
    }
  }

  /** The merge of an arbitrary catalog into a list; see `MergeProfilesSpec`. */
  lemma MergeSpec(cat: seq<string>, items: seq<Value>)
    ensures forall p :: p in cat ==> Str(p) in Strs(MissingFrom(cat, items)) + items
    ensures forall x :: x in Strs(MissingFrom(cat, items)) ==> x.Str? && x.s in cat && x !in items
    ensures MissingFrom(cat, Strs(MissingFrom(cat, items)) + items) == []
    ensures MissingFrom(cat, items) == [] <==> forall p :: p in cat ==> Str(p) in items
  {
    var m := MissingFrom(cat, items);
    var r := Strs(m) + items;
    forall p | p in cat
      ensures Str(p) in r
    {
      if Str(p) !in items {
        assert p in m;
        var i :| 0 <= i < |m| && m[i] == p;
        assert r[i] == Str(p);
      }
    }
    forall x | x in Strs(m)
      ensures x.Str? && x.s in cat && x !in items
    {
      var i :| 0 <= i < |m| && Strs(m)[i] == x;
      assert x == Str(m[i]);
    }
    NothingMissing(cat, r);
    if forall p :: p in cat ==> Str(p) in items {
      NothingMissing(cat, items);
    }
    if m != [] {
      assert m[0] in m;
    }
  }

  /**
   * After the merge every catalog entry is present, the original list is an
   * unchanged suffix, the prepended part holds only catalog entries the list
   * lacked, in catalog order, and a second merge adds nothing. Nothing is
   * missing exactly when every catalog entry is already there.
   */
  lemma MergeProfilesSpec(items: seq<Value>)
    ensures forall p :: p in Catalog ==> Str(p) in MergeProfiles(items)
    ensures MergeProfiles(items)[|MergeProfiles(items)| - |items|..] == items
    ensures forall x :: x in MergeProfiles(items)[..|MergeProfiles(items)| - |items|] ==>
              x.Str? && x.s in Catalog && x !in items
    ensures forall i, j :: 0 <= i < j < |MergeProfiles(items)| - |items| ==>
              CatalogOrder(MergeProfiles(items)[i], MergeProfiles(items)[j])
    ensures MissingProfiles(MergeProfiles(items)) == []
    ensures MissingProfiles(items) == [] <==> forall p :: p in Catalog ==> Str(p) in items
  {
    MergeSpec(Catalog, items);
    var ps := MissingProfiles(items);
    var m := Strs(ps);
    assert MergeProfiles(items)[|m|..] == items;
    assert MergeProfiles(items)[..|m|] == m;
    MergedPrefixOrdered(items);
  }

  lemma MergedPrefixOrdered(items: seq<Value>)
    ensures forall i, j :: 0 <= i < j < |MissingProfiles(items)| ==>
              CatalogOrder(MergeProfiles(items)[i], MergeProfiles(items)[j])
  {
    var ps := MissingProfiles(items);
    SubseqOrder(ps, Catalog);
    forall i, j | 0 <= i < j < |ps|
      ensures CatalogOrder(MergeProfiles(items)[i], MergeProfiles(items)[j])
    {
      assert InOrder(Catalog, ps[i], ps[j]);
      var a, b :| 0 <= a < b < |Catalog| && Catalog[a] == ps[i] && Catalog[b] == ps[j];
      assert MergeProfiles(items)[i] == Str(Catalog[a]) && MergeProfiles(items)[j] == Str(Catalog[b]);
    }
  }

  /** `x` and `y` are catalog entries and `x` comes first in the catalog. */
  predicate CatalogOrder(x: Value, y: Value)
  {
    exists a, b :: 0 <= a < b < |Catalog| && x == Str(Catalog[a]) && y == Str(Catalog[b])
  }

  /** Strings of a duplicate-free list each occur once. */
  lemma StrsCount(ps: seq<string>, p: string)
    requires Distinct(ps)
    ensures multiset(Strs(ps))[Str(p)] == if p in ps then 1 else 0
  {
    if ps != [] {
      assert Strs(ps) == [Str(ps[0])] + Strs(ps[1..]);
      assert Distinct(ps[1..]);
      StrsCount(ps[1..], p);
      assert p in ps <==> p == ps[0] || p in ps[1..];
    }
  }

  /**
   * The merge adds each missing catalog entry exactly once and leaves the
   * count of an entry already present as it was.
   */
  lemma MergeProfilesCount(items: seq<Value>, p: string)
    requires p in Catalog
    ensures multiset(MergeProfiles(items))[Str(p)] ==
              if Str(p) in items then multiset(items)[Str(p)] else 1
  {
    CatalogDistinct();
    var m := MissingProfiles(items);
    StrsCount(m, p);
    assert multiset(MergeProfiles(items)) == multiset(Strs(m)) + multiset(items);
  }

  // ---------------------------------------------------------------------
  // Key predicates of the hooks
  // ---------------------------------------------------------------------

  /** The key test of the `Object.assign` hook (inject.js:420-425). */
  predicate AssignKey(lk: string)
  {
    Contains(lk, "bitrate") || Contains(lk, "maxheight") || Contains(lk, "maxwidth") ||
    Contains(lk, "maxresolution") || Contains(lk, "videoprofile") || Contains(lk, "hdcp")
  }

  /**
   * `keys.some(...)` over `Object.keys(result)`. An object that triggers the
   * merge hook through a key other than an HDCP one also triggers the parse
   * hook.
   */
  predicate AssignTrigger(keys: seq<string>): (b: bool)
    ensures b && NoHdcpName(keys) ==> ParseTrigger(keys)
  {
    AssignKeysParse(keys);
    exists i :: 0 <= i < |keys| && AssignKey(Lower(keys[i]))
  }

  /** No key names HDCP. */
  predicate NoHdcpName(keys: seq<string>)
  {
    forall i :: 0 <= i < |keys| ==> !Contains(Lower(keys[i]), "hdcp")
  }

  lemma AssignKeysParse(keys: seq<string>)
    ensures (exists i :: 0 <= i < |keys| && AssignKey(Lower(keys[i]))) && NoHdcpName(keys) ==> ParseTrigger(keys)
  {
    if i :| 0 <= i < |keys| && AssignKey(Lower(keys[i])) && NoHdcpName(keys) {
      AssignKeyImpliesParseKey(Lower(keys[i]));
    }
  }

  /** The key test of the `JSON.parse` hook (inject.js:708-715). */
  predicate ParseKey(lk: string)
  {
    Contains(lk, "bitrate") || Contains(lk, "resolution") || Contains(lk, "maxheight") ||
    Contains(lk, "maxwidth") || Contains(lk, "profile") || Contains(lk, "drm") ||
    Contains(lk, "manifest") || Contains(lk, "playback") || Contains(lk, "video")
  }

  predicate ParseTrigger(keys: seq<string>)
  {
    exists i :: 0 <= i < |keys| && ParseKey(Lower(keys[i]))
  }

  /**
   * Every name that makes the merge hook patch also makes the parse hook
   * patch, except the HDCP names, which only the merge hook looks for.
   */
  lemma AssignKeyImpliesParseKey(lk: string)
    requires AssignKey(lk) && !Contains(lk, "hdcp")
    ensures ParseKey(lk)
  {
    ContainsAt("maxresolution", "resolution", 3);
    ContainsAt("videoprofile", "video", 0);
    if Contains(lk, "maxresolution") {
      ContainsTrans(lk, "maxresolution", "resolution");
    }
    if Contains(lk, "videoprofile") {
      ContainsTrans(lk, "videoprofile", "video");
    }
  }

  /** The parse hook patches every object that has a `profiles` list: the name itself matches. */
  lemma ProfilesKeyTriggersParse(keys: seq<string>, i: nat)
    requires i < |keys| && keys[i] == "profiles"
    ensures ParseTrigger(keys)
  {
    LowerIdentity("profiles");
    ContainsAt("profiles", "profile", 0);
  }

  /** A plain `height` property triggers neither hook, although the patcher would raise it. */
  lemma PlainHeightTriggersNoHook()
    ensures !AssignTrigger(["height"]) && !ParseTrigger(["height"])
    ensures Corrected("height", 1080) == TargetHeight
  {
    LowerIdentity("height");
    var lk := "height";
    MissingChar(lk, "bitrate", 0);
    MissingChar(lk, "maxheight", 0);
    MissingChar(lk, "maxwidth", 0);
    MissingChar(lk, "maxresolution", 0);
    MissingChar(lk, "videoprofile", 0);
    MissingChar(lk, "hdcp", 1);
    MissingChar(lk, "resolution", 0);
    MissingChar(lk, "profile", 0);
    MissingChar(lk, "drm", 0);
    MissingChar(lk, "manifest", 0);
    MissingChar(lk, "playback", 0);
    MissingChar(lk, "video", 0);
    DimensionExamples();
  }

  // ---------------------------------------------------------------------
  // Text gates of the serialization hooks
  // ---------------------------------------------------------------------

  /** Profile literals looked for in `JSON.stringify` output (inject.js:559-561). */
  predicate HasProfileMarkers(s: string)
  {
    Contains(s, "dash-cenc") || Contains(s, "hevc-main") || Contains(s, "vp9-profile") ||
    Contains(s, "av1-main") || Contains(s, "playready-h264")
  }

  /** Manifest field names looked for in `JSON.stringify` output (inject.js:562-563). */
  predicate HasManifestMarkers(s: string)
  {
    Contains(s, "viewableId") || Contains(s, "lookupType") || Contains(s, "\"method\":\"manifest\"")
  }

  /** The gate of the `JSON.stringify` hook (inject.js:565). */
  predicate StringifyGate(s: string)
  {
    HasProfileMarkers(s) || HasManifestMarkers(s)
  }

  /** The gate of the `TextEncoder.encode` hook (inject.js:610-612); `input.length` counts UTF-16 code units. */
  predicate EncodeGate(s: string)
  {
    JsLength(s) > 100 &&
    (Contains(s, "\"profiles\"") || Contains(s, "\"viewableIds\"") || Contains(s, "\"lookupType\""))
  }

  /** The shape of a message-layer chunk (inject.js:650). */
  predicate EnvelopeGate(s: string)
  {
    Contains(s, "\"data\"") && (Contains(s, "\"sequencenumber\"") || Contains(s, "\"messageid\""))
  }

  /** The test on a chunk's decoded payload (inject.js:655). */
  predicate InnerGate(s: string)
  {
    Contains(s, "\"profiles\"") || Contains(s, "\"viewableIds\"")
  }

  lemma HevcEntryMarked(i: nat)
    requires i < 6
    ensures Contains(Catalog[i], "hevc-main")
  {
    ContainsAt(Catalog[i], "hevc-main", 0);
  }

  lemma Vp9EntryMarked(i: nat)
    requires 6 <= i < 10
    ensures Contains(Catalog[i], "vp9-profile")
  {
    ContainsAt(Catalog[i], "vp9-profile", 0);
  }

  /** Every catalog entry carries one of the profile markers. */
  lemma CatalogEntryMarked(p: string)
    requires p in Catalog
    ensures HasProfileMarkers(p)
  {
    var i :| 0 <= i < |Catalog| && Catalog[i] == p;
    if i < 6 {
      HevcEntryMarked(i);
    } else if i < 10 {
      Vp9EntryMarked(i);
    } else if i < 12 {
      ContainsAt(p, "av1-main", 0);
    } else {
      ContainsAt(p, "playready-h264", 0);
    }
  }

  /** Any text that quotes a catalog entry passes the stringify gate. */
  lemma CatalogEntriesAreMarked(s: string, p: string)
    requires p in Catalog && Contains(s, p)
    ensures StringifyGate(s)
  {
    CatalogEntryMarked(p);
    if Contains(p, "dash-cenc") {
      ContainsTrans(s, p, "dash-cenc");
    } else if Contains(p, "hevc-main") {
      ContainsTrans(s, p, "hevc-main");
    } else if Contains(p, "vp9-profile") {
      ContainsTrans(s, p, "vp9-profile");
    } else if Contains(p, "av1-main") {
      ContainsTrans(s, p, "av1-main");
    } else {
      ContainsTrans(s, p, "playready-h264");
    }
  }
}
