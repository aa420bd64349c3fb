/**
 * The hooks that rewrite one value at a time: `Object.defineProperty`
 * (inject.js:350-380), the `set` and `get` traps of the config proxy
 * (inject.js:437-467), and the codec tests of `decodingInfo` and
 * `isTypeSupported` (inject.js:95-122, 133-139).
 */
module Hooks {
  import opened Wrappers
  import opened Strings
  import opened Values
  import opened Classifier

  // ---------------------------------------------------------------------
  // Object.defineProperty
  // ---------------------------------------------------------------------

  /** `{ ...descriptor, value: v }`: a new, unfrozen copy with `value` replaced. */
  function WithValue(d: Record, v: Value): (r: Record)
    ensures r.fields == d.fields["value" := v] && !r.frozen
    ensures r.keys == if "value" in d.fields then d.keys else d.keys + ["value"]
  {
    Put(Record(d.keys, d.fields, false), "value", v)
  }

  /**
   * The value the hook gives the descriptor named `lk`, if a rule fires: a
   * number gets the patcher's numeric rules, a string under an HDCP name
   * becomes "2.2", and nothing else is touched.
   */
  function DescriptorRule(lk: string, val: Value): (r: Option<Value>)
    ensures r.Some? ==> (val.Num? && r.value.Num? && val.n < r.value.n) || (val.Str? && r.value == Str("2.2"))
    ensures val.Num? ==> (r.Some? <==> NumberRule(lk, val.n).Some?) &&
                          (r.Some? ==> r.value == Num(Corrected(lk, val.n)))
    ensures val.Str? ==> (r.Some? <==> IsHdcpKey(lk))
    ensures !val.Num? && !val.Str? ==> r.None?
  {
    match val
    case Num(n) =>
      (match NumberRule(lk, n)
       case Some(t) => Some(Num(t))
       case None => None)
    case Str(_) => if IsHdcpKey(lk) then Some(Str("2.2")) else None
    case _ => None
  }

  /**
   * The descriptor the hook hands to the original `defineProperty`. `prop`
   * is the property key (a symbol is not a string); `desc` is `None` for a
   * falsy descriptor. A numeric rule or the HDCP rule replaces the
   * descriptor by a copy with a new `value`; otherwise it passes unchanged.
   */
  function DefinePropertyHook(prop: Value, desc: Option<Record>): (r: Option<Record>)
    ensures desc.None? ==> r.None?
  {
    if prop.Str? && desc.Some? && Get(desc.value, "value") != Undefined then
      match DescriptorRule(Lower(prop.s), Get(desc.value, "value"))
      case Some(v) => Some(WithValue(desc.value, v))
      case None => desc
    else desc
  }

  /**
   * Transparency: a descriptor that is missing, has no `value`, is defined
   * under a symbol or matches no rule reaches the original as it was.
   */
  lemma DefinePropertyTransparent(prop: Value, desc: Option<Record>)
    requires !prop.Str? || desc.None? || Get(desc.value, "value") == Undefined ||
             DescriptorRule(Lower(prop.s), Get(desc.value, "value")).None?
    ensures DefinePropertyHook(prop, desc) == desc
  {
  }

  /**
   * A descriptor the hook changes differs from the original in its `value`
   * alone: the same keys in the same order and every other field as it was;
   * the new value is a raised number or the HDCP string "2.2".
   */
  lemma DefinePropertyOnlyValue(prop: Value, desc: Option<Record>)
    requires DefinePropertyHook(prop, desc) != desc
    ensures var r := DefinePropertyHook(prop, desc).value;
            var d := desc.value;
            prop.Str? && "value" in d.fields && r.keys == d.keys && r.fields.Keys == d.fields.Keys &&
            (forall k :: k in d.fields && k != "value" ==> r.fields[k] == d.fields[k]) &&
            var o := d.fields["value"];
            var n := r.fields["value"];
            (o.Num? && n.Num? && o.n < n.n && n.n in {TargetBitrate, TargetHeight, TargetWidth}) ||
            (o.Str? && n == Str("2.2") && IsHdcpKey(Lower(prop.s)))
  {
    var d := desc.value;
    var v := Get(d, "value");
    assert "value" in d.fields;
    if v.Num? {
      var t := NumberRule(Lower(prop.s), v.n);
      assert t.Some?;
    }
  }

  /** How the rules classify the name `hdcp`. */
  lemma HdcpName()
    ensures Lower("hdcp") == "hdcp" && IsHdcpKey("hdcp")
  {
    LowerIdentity("hdcp");
    ContainsAt("hdcp", "hdcp", 0);
  }

  /** `defineProperty` does apply the HDCP rule: an HDCP string under `hdcp` is defined as "2.2". */
  lemma DefinePropertyHdcp(d: Record, s: string)
    requires Get(d, "value") == Str(s)
    ensures DefinePropertyHook(Str("hdcp"), Some(d)) == Some(WithValue(d, Str("2.2")))
  {
    HdcpName();
  }

  // ---------------------------------------------------------------------
  // The config proxy (never installed by the script)
  // ---------------------------------------------------------------------

  /**
   * The `set` trap's rewrite of the assigned value. The three tests run in
   * sequence on the value as rewritten so far; the bitrate test has neither
   * the `value > 0` nor the likely-audio guard, and `abitrate` is not
   * excluded. The width test still matches bandwidth names.
   */
  function ProxySet(lp: string, value: Value): (r: Value)
    ensures !value.Num? ==> r == value
    ensures r == value || (value.Num? && r.Num? && value.n < r.n && r.n in {TargetBitrate, TargetHeight, TargetWidth})
  {
    var v1 :=
      if (Contains(lp, "bitrate") || Contains(lp, "bandwidth")) && value.Num? &&
         !Contains(lp, "audio") && !Contains(lp, "min") && value.n < TargetBitrate
      then Num(TargetBitrate) else value;
    var v2 :=
      if Contains(lp, "height") && v1.Num? && !Contains(lp, "min") && 720 <= v1.n < TargetHeight
      then Num(TargetHeight) else v1;
    if Contains(lp, "width") && v2.Num? && !Contains(lp, "min") && 1280 <= v2.n < TargetWidth
    then Num(TargetWidth) else v2
  }

  /**
   * `obj[prop] = value` through the proxy: the target's property receives
   * the rewritten value. The script is in strict mode, so on a frozen
   * target the write throws a `TypeError` out of the trap (`None`).
   */
  function ProxySetOn(target: Record, prop: string, value: Value): (r: Option<Record>)
    ensures r.None? <==> target.frozen
    ensures r.Some? ==> Get(r.value, prop) == ProxySet(Lower(prop), value)
    ensures r.Some? ==> forall k :: k != prop ==> Get(r.value, k) == Get(target, k)
  {
    if target.frozen then None else Some(Put(target, prop, ProxySet(Lower(prop), value)))
  }

  /** How the rules classify the name `maxbitrate`: a bitrate name only. */
  lemma MaxBitrateName()
    ensures IsBitrateKey("maxbitrate") && !Contains("maxbitrate", "audio")
    ensures !Contains("maxbitrate", "height") && !Contains("maxbitrate", "width")
  {
    ContainsAt("maxbitrate", "bitrate", 3);
    MissingChar("maxbitrate", "min", 2);
    MissingChar("maxbitrate", "audio", 1);
    MissingChar("maxbitrate", "height", 0);
    MissingChar("maxbitrate", "width", 0);
  }

  /**
   * How the rules classify the name `abitrate`: a bitrate name only, which
   * the set trap does not take for audio.
   */
  lemma AbitrateName()
    ensures Contains("abitrate", "bitrate") && !Contains("abitrate", "min") && !Contains("abitrate", "audio")
    ensures !Contains("abitrate", "height") && !Contains("abitrate", "width")
    ensures IsAudioProp("abitrate")
  {
    assert "abitrate"[1..8] == "bitrate";
    ContainsAt("abitrate", "bitrate", 1);
    MissingChar("abitrate", "min", 0);
    MissingChar("abitrate", "audio", 1);
    MissingChar("abitrate", "height", 0);
    MissingChar("abitrate", "width", 0);
  }

  /**
   * The `set` trap lacks the guards of the patcher's bitrate rule: a negative
   * cap and a small `abitrate` value are both raised to 16000, where the
   * patcher's rule leaves each of them as it is.
   */
  lemma ProxySetLacksGuards()
    ensures ProxySet("maxbitrate", Num(-1)) == Num(TargetBitrate) && NumberRule("maxbitrate", -1).None?
    ensures ProxySet("abitrate", Num(128)) == Num(TargetBitrate) && NumberRule("abitrate", 128).None?
  {
    MaxBitrateName();
    AbitrateName();
  }

  /** The names the `get` trap answers itself. */
  const TrappedNames: set<string> :=
    {"maxbitrate", "maxvideobitrate", "maxvideoheight", "maxheight", "maxvideowidth", "maxwidth", "hdcpversion", "hdcp"}

  /** What the `get` trap returns: a value, or NaN from `Math.max` on something that is no number. */
  datatype Reading = Plain(v: Value) | NotANumber

  /**
   * The `get` trap for the lower-cased name `lp` of a property holding
   * `value`. `toNumber` is the number conversion `Math.max` applies to a
   * truthy non-number (`None` is NaN). Only the exact names listed are
   * answered; every other read returns the stored value.
   */
  function ProxyGet(lp: string, value: Value, h: Heap, toNumber: Value -> Option<int>): (r: Reading)
    ensures lp !in TrappedNames ==> r == Plain(value)
  {
    if lp == "maxbitrate" || lp == "maxvideobitrate" then
      var x := if !Truthy(h, value) then Some(0)
               else if value.Num? then Some(value.n)
               else if value.Bool? then Some(1)
               else toNumber(value);
      match x
      case None => NotANumber
      case Some(n) => Plain(Num(if n < TargetBitrate then TargetBitrate else n))
    else if lp == "maxvideoheight" || lp == "maxheight" then Plain(Num(TargetHeight))
    else if lp == "maxvideowidth" || lp == "maxwidth" then Plain(Num(TargetWidth))
    else if lp == "hdcpversion" || lp == "hdcp" then Plain(Str("2.2"))
    else Plain(value)
  }

  /**
   * Every capped name reads at least its target whatever is stored: a bitrate
   * cap at least 16000 (or NaN), the height and width caps exactly 2160 and
   * 3840, the HDCP names "2.2".
   */
  lemma ProxyGetCaps(lp: string, value: Value, h: Heap, toNumber: Value -> Option<int>)
    ensures var r := ProxyGet(lp, value, h, toNumber);
            (lp in {"maxbitrate", "maxvideobitrate"} ==>
               r == NotANumber || (r.v.Num? && r.v.n >= TargetBitrate && (value.Num? ==> r.v.n >= value.n))) &&
            (lp in {"maxvideoheight", "maxheight"} ==> r == Plain(Num(TargetHeight))) &&
            (lp in {"maxvideowidth", "maxwidth"} ==> r == Plain(Num(TargetWidth))) &&
            (lp in {"hdcpversion", "hdcp"} ==> r == Plain(Str("2.2")))
  {
  }

  /** A number stored under a bitrate cap is read back unchanged once it is at least 16000. */
  lemma ProxyGetKeepsHighBitrate(lp: string, n: int, h: Heap, toNumber: Value -> Option<int>)
    requires lp in {"maxbitrate", "maxvideobitrate"} && n >= TargetBitrate
    ensures ProxyGet(lp, Num(n), h, toNumber) == Plain(Num(n))
  {
  }

  // ---------------------------------------------------------------------
  // decodingInfo and isTypeSupported
  // ---------------------------------------------------------------------

  /** The codec names `decodingInfo` answers for (inject.js:95-97). */
  const DecodingCodecs: seq<string> := ["hev1", "hvc1", "vp09", "vp9", "av01", "av1", "dvhe", "dvh1"]

  /** The codec names `isTypeSupported` answers for (inject.js:134-136): no `av1`. */
  const TypeCodecs: seq<string> := ["hev1", "hvc1", "dvh1", "dvhe", "vp09", "vp9", "av01"]

  /** `list.some(c => s.toLowerCase().includes(c))`. */
  predicate MentionsAny(s: string, list: seq<string>)
  {
    exists i :: 0 <= i < |list| && Contains(Lower(s), list[i])
  }

  /** `config.video` of a decoding query: its `contentType` and its `width`, either possibly absent. */
  datatype VideoConfig = VideoConfig(contentType: Option<string>, width: Option<int>)

  /** A `MediaCapabilitiesDecodingInfo`; `keySystemAccess` is whatever the browser put there. */
  datatype DecodingInfo<K> = DecodingInfo(supported: bool, smooth: bool, powerEfficient: bool, keySystemAccess: Option<K>)

  /** How the original `decodingInfo` settled: a result, or a rejection with an error. */
  datatype Settled<K, E> = Resolved(info: DecodingInfo<K>) | Rejected(error: E)

  /** Whether the query names a 4K codec (`config.video` absent: no). */
  predicate Dominated(video: Option<VideoConfig>)
  {
    video.Some? &&
    MentionsAny(match video.value.contentType case Some(t) => t case None => "", DecodingCodecs)
  }

  /**
   * The `decodingInfo` wrapper on a query with video part `video`, given how
   * the original call settled.
   */
  function DecodingInfoHook<K, E>(video: Option<VideoConfig>, original: Settled<K, E>): (r: Settled<K, E>)
    ensures Dominated(video) ==> r.Resolved? && r.info.supported && r.info.smooth && r.info.powerEfficient
    ensures !Dominated(video) && original.Rejected? ==> r == original
  {
    var dominated := Dominated(video);
    match original
    case Resolved(info) =>
      if dominated || (video.Some? && video.value.width.Some? && video.value.width.value >= TargetWidth) then
        Resolved(DecodingInfo(true, true, true, info.keySystemAccess))
      else original
    case Rejected(_) =>
      if dominated then Resolved(DecodingInfo(true, true, true, None)) else original
  }

  /**
   * A query that names no 4K codec and asks for less than 3840 pixels of
   * width (or for none) gets the browser's own answer; a resolved answer to
   * a wide query is claimed fully supported, keeping its key system access.
   */
  lemma DecodingInfoPassThrough<K, E>(video: Option<VideoConfig>, original: Settled<K, E>)
    requires !Dominated(video)
    ensures (video.None? || video.value.width.None? || video.value.width.value < TargetWidth) ==>
              DecodingInfoHook(video, original) == original
    ensures original.Resolved? && video.Some? && video.value.width.Some? && video.value.width.value >= TargetWidth ==>
              DecodingInfoHook(video, original) == Resolved(DecodingInfo(true, true, true, original.info.keySystemAccess))
  {
  }

  /**
   * The `isTypeSupported` wrapper, given the original's answer. It never
   * denies what the browser supports, leaves a type naming no 4K family to
   * the browser, claims every type that names one, and every type it claims
   * beyond the browser's answer also counts as 4K for `decodingInfo`.
   */
  function IsTypeSupportedHook(mime: string, original: bool): (r: bool)
    ensures original ==> r
    ensures !MentionsAny(mime, TypeCodecs) ==> r == original
    ensures MentionsAny(mime, TypeCodecs) ==> r
    ensures r && !original ==> Dominated(Some(VideoConfig(Some(mime), None)))
  {
    if MentionsAny(mime, TypeCodecs) then
      TypeCodecsAreDecodingCodecs(mime);
      true
    else original
  }

  /** Every type `isTypeSupported` claims also counts as 4K for `decodingInfo`. */
  lemma TypeCodecsAreDecodingCodecs(mime: string)
    requires MentionsAny(mime, TypeCodecs)
    ensures Dominated(Some(VideoConfig(Some(mime), None)))
  {
    var i :| 0 <= i < |TypeCodecs| && Contains(Lower(mime), TypeCodecs[i]);
    var j := [0, 1, 7, 6, 2, 3, 4][i];
    assert DecodingCodecs[j] == TypeCodecs[i];
  }

  /**
   * `av1` is a 4K codec to `decodingInfo` only: a type named `av1` is
   * claimed decodable, while `isTypeSupported` leaves it to the browser.
   */
  lemma Av1OnlyDecoding(original: bool)
    ensures Dominated(Some(VideoConfig(Some("av1"), None)))
    ensures IsTypeSupportedHook("av1", original) == original
  {
    LowerIdentity("av1");
    ContainsAt("av1", "av1", 0);
    assert DecodingCodecs[5] == "av1";
    Av1NotTypeCodec();
  }

  /** `av1` contains none of the `isTypeSupported` family names. */
  lemma Av1NotTypeCodec()
    ensures !MentionsAny("av1", TypeCodecs)
  {
    LowerIdentity("av1");
    MissingChar("av1", "hev1", 0);
    MissingChar("av1", "hvc1", 0);
    MissingChar("av1", "dvh1", 0);
    MissingChar("av1", "dvhe", 0);
    MissingChar("av1", "vp09", 1);
    MissingChar("av1", "vp9", 1);
    MissingChar("av1", "av01", 2);
  }
}
