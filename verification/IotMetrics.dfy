/**
 `_create_metrics`: the metadata dictionary sent in the MQTT CONNECT packet, made from the CRT's feature list
 and the metrics the IoT SDK supplies.
 */
module IotMetrics {
  import opened Octets
  import opened StringDict
  import F = FeatureLists

  const CRT_VERSION := "CRTVersion"
  const METRICS_VERSION := "IoTSDKMetricsVersion"
  const FEATURE := "IoTSDKFeature"
  const DEFAULT_LIBRARY := "IoTDeviceSDK/Python"
  const CURRENT_VERSION := 1

  datatype Metrics = Metrics(libraryName: string, entries: Option<seq<Item>>)

  datatype Result<+T> = Ok(value: T) | ValueError

  /**
   What Python knows about digits: `str.isdigit` looks at `isDigit`, while `int()` wants characters with a
   `decimal` value and at most `maxDigits` of them (0 for no limit; otherwise Python insists on 640 or more).
   Superscripts are digits without a decimal value.
   */
  datatype Digits = Digits(isDigit: char -> bool, decimal: char -> Option<nat>, maxDigits: nat)

  ghost predicate IsPython(d: Digits) {
    && (forall c :: d.decimal(c).Some? ==> d.isDigit(c))
    && d.decimal('1') == Some(1)
    && (d.maxDigits == 0 || d.maxDigits >= 640)
  }

  predicate AllDigits(d: Digits, s: string) {
    s == "" || (d.isDigit(s[0]) && AllDigits(d, s[1..]))
  }

  /** `s.isdigit()`. */
  predicate IsDigit(d: Digits, s: string) {
    s != "" && AllDigits(d, s)
  }

  predicate AllDecimal(d: Digits, s: string) {
    s == "" || (d.decimal(s[0]).Some? && AllDecimal(d, s[1..]))
  }

  function Decimal(d: Digits, s: string, acc: nat): nat
    requires AllDecimal(d, s)
    decreases |s|
  {
    if s == "" then acc else Decimal(d, s[1..], 10 * acc + d.decimal(s[0]).value)
  }

  /** `int(s)`, for a string all of whose characters are digits. */
  function IntOf(d: Digits, s: string): Result<nat> {
    if s == "" || !AllDecimal(d, s) || (d.maxDigits != 0 && |s| > d.maxDigits) then ValueError
    else Ok(Decimal(d, s, 0))
  }

  predicate Reserved(key: string) {
    key == CRT_VERSION || key == METRICS_VERSION || key == FEATURE
  }

  /** The entries passed through unchanged. */
  function Others(entries: seq<Item>): (r: seq<Item>)
    ensures forall key :: Has(r, key) <==> Has(entries, key) && !Reserved(key)
    ensures forall key :: !Reserved(key) ==> LastValue(r, key) == LastValue(entries, key)
  {
    if entries == [] then []
    else if Reserved(entries[0].key) then Others(entries[1..])
    else
      var rest := Others(entries[1..]);
      assert ([entries[0]] + rest)[1..] == rest;
      [entries[0]] + rest
  }

  function EntriesOf(user: Option<Metrics>): seq<Item> {
    if user.Some? && user.value.entries.Some? then user.value.entries.value else []
  }

  /** Whether the user's features take part; the comparison itself can raise. */
  function VersionMatches(d: Digits, version: Option<string>): Result<bool> {
    if version.Some? && IsDigit(d, version.value) then
      match IntOf(d, version.value)
      case ValueError => ValueError
      case Ok(n) => Ok(n == CURRENT_VERSION)
    else Ok(false)
  }

  function UserFeature(entries: seq<Item>): string {
    match LastValue(entries, FEATURE)
    case None => ""
    case Some(s) => s
  }

  /** The two loops of the source: first the entries, then the three keys the CRT sets itself. */
  method CreateMetrics(user: Option<Metrics>, crtFeatures: string, crtVersion: string, d: Digits)
    returns (r: Result<Metrics>)
    ensures r == Create(user, crtFeatures, crtVersion, d)
    ensures r.Ok? ==> r.value.libraryName == if user.Some? then user.value.libraryName else "IoTDeviceSDK/Python"
  {
    var name := if user.Some? then user.value.libraryName else DEFAULT_LIBRARY;
    var metadata := [Item(CRT_VERSION, crtVersion)];
    var version: Option<string> := None;
    var feature := "";
    var entries := EntriesOf(user);
    for i := 0 to |entries|
      invariant SetAll(metadata, Others(entries[i..])) == SetAll([Item(CRT_VERSION, crtVersion)], Others(entries))
      invariant Later(entries[i..], METRICS_VERSION, version) == LastValue(entries, METRICS_VERSION)
      invariant Later(entries[i..], FEATURE, Some(feature)) == Some(UserFeature(entries))
    {
      var entry := entries[i];
      assert entries[i..][1..] == entries[i + 1..];
      if entry.key == METRICS_VERSION {
        version := Some(entry.val);
      } else if entry.key == FEATURE {
        feature := entry.val;
      } else if entry.key != CRT_VERSION {
        metadata := Set(metadata, entry.key, entry.val);
      }
    }
    assert entries[|entries|..] == [];
    var merged;
    if version.Some? && IsDigit(d, version.value) {
      var number := IntOf(d, version.value);
      if number.ValueError? {
        return ValueError;
      }
      merged := F.MergeFeatureLists(crtFeatures, if number.value == CURRENT_VERSION then feature else "");
    } else {
      merged := F.MergeFeatureLists(crtFeatures, "");
    }
    metadata := Set(metadata, FEATURE, merged);
    metadata := Set(metadata, METRICS_VERSION, "1");
    r := Ok(Metrics(name, Some(metadata)));
    FinalEntries(Others(entries), crtVersion, merged);
  }

  /** The value in force after `current` and then `entries`. */
  function Later(entries: seq<Item>, key: string, current: Option<string>): Option<string> {
    if LastValue(entries, key).Some? then LastValue(entries, key) else current
  }

  /** The result described without the dictionary's history. */
  function Create(user: Option<Metrics>, crtFeatures: string, crtVersion: string, d: Digits): Result<Metrics> {
    var entries := EntriesOf(user);
    match VersionMatches(d, LastValue(entries, METRICS_VERSION))
    case ValueError => ValueError
    case Ok(matches) =>
      var features := F.Merge(crtFeatures, if matches then UserFeature(entries) else "");
      Ok(Metrics(if user.Some? then user.value.libraryName else DEFAULT_LIBRARY,
                 Some(Laid(SetAll([], Others(entries)), crtVersion, features))))
  }

  function Tail(features: string): Dict {
    [Item(FEATURE, features), Item(METRICS_VERSION, "1")]
  }

  /** Order of the entries: the CRT version, the passed-through ones, the features, the metrics version. */
  function Laid(others: Dict, crtVersion: string, features: string): Dict {
    [Item(CRT_VERSION, crtVersion)] + others + Tail(features)
  }

  lemma {:induction false} SetAllSkips(x: Item, m: Dict, items: seq<Item>)
    requires !Has(items, x.key)
    ensures SetAll([x] + m, items) == [x] + SetAll(m, items)
    decreases |items|
  {
    if items == [] {
    } else {
      var head := items[0];
      assert ([x] + m)[1..] == m;
      SetAllSkips(x, Set(m, head.key, head.val), items[1..]);
    }
  }

  lemma FinalEntries(others: seq<Item>, crtVersion: string, features: string)
    requires forall key :: Has(others, key) ==> !Reserved(key)
    ensures Set(Set(SetAll([Item(CRT_VERSION, crtVersion)], others), FEATURE, features), METRICS_VERSION, "1")
         == Laid(SetAll([], others), crtVersion, features)
  {
    var x := Item(CRT_VERSION, crtVersion);
    var m := [x] + SetAll([], others);
    SetAllSkips(x, [], others);
    assert [x] + [] == [x];
    forall key ensures Has(m, key) <==> key == CRT_VERSION || Has(others, key) {
      assert m[1..] == SetAll([], others);
      HasAfterSetAll([], others, key);
    }
    SetAppends(m, FEATURE, features);
    HasOfConcat(m, [Item(FEATURE, features)], METRICS_VERSION);
    assert [Item(FEATURE, features)][1..] == [];
    SetAppends(m + [Item(FEATURE, features)], METRICS_VERSION, "1");
    assert Laid(SetAll([], others), crtVersion, features)
        == m + [Item(FEATURE, features)] + [Item(METRICS_VERSION, "1")];
  }

  lemma HasAfterSetAll(m: Dict, items: seq<Item>, key: string)
    ensures Has(SetAll(m, items), key) <==> Has(m, key) || Has(items, key)
  {
    GetAfterSetAll(m, items, key);
    F.GetIffHas(SetAll(m, items), key);
    F.GetIffHas(m, key);
  }

  // ---- what the entries are ----

  lemma TailEntries(features: string, key: string)
    ensures Unique(Tail(features))
    ensures Get(Tail(features), key)
         == if key == FEATURE then Some(features) else if key == METRICS_VERSION then Some("1") else None
    ensures Others(Tail(features)) == []
  {
    var tail := Tail(features);
    var last := tail[1..];
    assert last == [Item(METRICS_VERSION, "1")] && last[1..] == [];
    assert Get(last[1..], key) == None;
    assert Get(last, key) == if key == METRICS_VERSION then Some("1") else None;
    assert Others(last) == Others(last[1..]);
    assert Others(tail) == Others(last);
  }

  lemma LaidEntries(others: Dict, crtVersion: string, features: string, key: string)
    requires Unique(others) && forall k :: Has(others, k) ==> !Reserved(k)
    ensures Unique(Laid(others, crtVersion, features))
    ensures Get(Laid(others, crtVersion, features), key)
         == if key == CRT_VERSION then Some(crtVersion)
            else if key == FEATURE then Some(features)
            else if key == METRICS_VERSION then Some("1")
            else Get(others, key)
  {
    var tail := Tail(features);
    var m := Laid(others, crtVersion, features);
    assert m[0] == Item(CRT_VERSION, crtVersion) && m[1..] == others + tail;
    forall k ensures Has(tail, k) <==> k == FEATURE || k == METRICS_VERSION {
      TailEntries(features, k);
      F.GetIffHas(tail, k);
    }
    TailEntries(features, key);
    hide Tail, Laid;
    UniqueOfConcat(others, tail);
    HasOfConcat(others, tail, CRT_VERSION);
    GetOfConcat(others, tail, key);
    F.GetIffHas(others, key);
  }

  lemma {:induction false} UniqueOfConcat(m: Dict, n: Dict)
    requires Unique(m) && Unique(n) && forall key :: Has(m, key) ==> !Has(n, key)
    ensures Unique(m + n)
  {
    if m == [] {
      assert m + n == n;
    } else {
      assert (m + n)[1..] == m[1..] + n;
      assert Has(m, m[0].key);
      assert forall key :: Has(m[1..], key) ==> Has(m, key);
      UniqueOfConcat(m[1..], n);
      HasOfConcat(m[1..], n, m[0].key);
    }
  }

  lemma {:induction false} GetOfConcat(m: Dict, n: Dict, key: string)
    ensures Get(m + n, key) == if Get(m, key).Some? then Get(m, key) else Get(n, key)
  {
    if m == [] {
      assert m + n == n;
    } else {
      assert (m + n)[1..] == m[1..] + n;
      GetOfConcat(m[1..], n, key);
    }
  }

  lemma OthersAreUnique(entries: seq<Item>)
    ensures Unique(SetAll([], Others(entries)))
    ensures forall key :: Has(SetAll([], Others(entries)), key) <==> Has(entries, key) && !Reserved(key)
  {
    SetAllKeepsUnique([], Others(entries));
    forall key ensures Has(SetAll([], Others(entries)), key) <==> Has(entries, key) && !Reserved(key) {
      HasAfterSetAll([], Others(entries), key);
    }
  }

  /** The metadata entries the user gives: none without a user, and none if the user leaves them out. */
  predicate Gives(user: Option<Metrics>, entries: seq<Item>) {
    match user
    case None => entries == []
    case Some(Metrics(_, None)) => entries == []
    case Some(Metrics(_, Some(given))) => entries == given
  }

  predicate Passed(key: string) {
    key != "CRTVersion" && key != "IoTSDKMetricsVersion" && key != "IoTSDKFeature"
  }

  /**
   The library name is the user's if there is a user. No key occurs twice; the CRT and metrics versions never
   come from the user; every other user key survives with the last value given to it, and nothing else appears.
   */
  lemma CreatedEntries(
    user: Option<Metrics>, entries: seq<Item>, crtFeatures: string, crtVersion: string, d: Digits, key: string)
    requires Gives(user, entries) && Create(user, crtFeatures, crtVersion, d).Ok?
    ensures var r := Create(user, crtFeatures, crtVersion, d).value;
            && r.libraryName == (if user.Some? then user.value.libraryName else "IoTDeviceSDK/Python")
            && r.entries.Some? && Unique(r.entries.value)
            && Get(r.entries.value, "CRTVersion") == Some(crtVersion)
            && Get(r.entries.value, "IoTSDKMetricsVersion") == Some("1")
            && (Passed(key) ==> Get(r.entries.value, key) == LastValue(entries, key))
  {
    assert entries == EntriesOf(user);
    var others := SetAll([], Others(entries));
    OthersAreUnique(entries);
    var matches := VersionMatches(d, LastValue(entries, METRICS_VERSION)).value;
    var merged := F.Merge(crtFeatures, if matches then UserFeature(entries) else "");
    LaidEntries(others, crtVersion, merged, CRT_VERSION);
    LaidEntries(others, crtVersion, merged, METRICS_VERSION);
    LaidEntries(others, crtVersion, merged, key);
    GetAfterSetAll([], Others(entries), key);
  }

  /**
   A feature takes the value of the user's last feature list only if the user's last metrics version is the
   current one and that list has the feature; otherwise it takes the CRT's.
   */
  lemma CreatedFeature(
    user: Option<Metrics>, entries: seq<Item>, crtFeatures: string, crtVersion: string, d: Digits, id: string)
    requires Gives(user, entries) && Create(user, crtFeatures, crtVersion, d).Ok?
    ensures var text := Get(Create(user, crtFeatures, crtVersion, d).value.entries.value, "IoTSDKFeature");
            var given := LastValue(entries, "IoTSDKFeature");
            && text.Some?
            && F.Feature(text.value, id)
            == if IsCurrent(d, LastValue(entries, "IoTSDKMetricsVersion"))
                  && given.Some? && F.Feature(given.value, id).Some?
               then F.Feature(given.value, id)
               else F.Feature(crtFeatures, id)
  {
    assert entries == EntriesOf(user);
    var matches := VersionMatches(d, LastValue(entries, METRICS_VERSION)).value;
    var given := if matches then UserFeature(entries) else "";
    MatchesIffCurrent(d, LastValue(entries, METRICS_VERSION));
    OthersAreUnique(entries);
    LaidEntries(SetAll([], Others(entries)), crtVersion, F.Merge(crtFeatures, given), FEATURE);
    F.MergePrefersUser(crtFeatures, given, id);
    assert F.Split("") == [""] && F.Pairs([""]) == [];
    hide IsCurrent, VersionMatches;
  }

  /**
   The current version as text: digits for `isdigit()` and `int()` alike, not too many of them, and these are
   zeros and then a one.
   */
  predicate IsCurrent(d: Digits, version: Option<string>) {
    version.Some? &&
    var s := version.value;
    && s != "" && (forall i :: 0 <= i < |s| ==> d.isDigit(s[i]))
    && (d.maxDigits == 0 || |s| <= d.maxDigits)
    && (forall i :: 0 <= i < |s| - 1 ==> d.decimal(s[i]) == Some(0)) && d.decimal(s[|s| - 1]) == Some(1)
  }

  lemma {:induction false} AllDigitsIff(d: Digits, s: string)
    ensures AllDigits(d, s) <==> forall i :: 0 <= i < |s| ==> d.isDigit(s[i])
  {
    if s != "" {
      AllDigitsIff(d, s[1..]);
      assert forall i :: 0 <= i < |s[1..]| ==> s[1..][i] == s[i + 1];
      assert forall i :: 0 < i < |s| ==> s[i] == s[1..][i - 1];
    }
  }

  lemma {:induction false} AllDecimalIff(d: Digits, s: string)
    ensures AllDecimal(d, s) <==> forall i :: 0 <= i < |s| ==> d.decimal(s[i]).Some?
  {
    if s != "" {
      AllDecimalIff(d, s[1..]);
      assert forall i :: 0 <= i < |s[1..]| ==> s[1..][i] == s[i + 1];
      assert forall i :: 0 < i < |s| ==> s[i] == s[1..][i - 1];
    }
  }

  predicate ZerosThenOne(d: Digits, s: string) {
    s != "" && if |s| == 1 then d.decimal(s[0]) == Some(1) else d.decimal(s[0]) == Some(0) && ZerosThenOne(d, s[1..])
  }

  lemma {:induction false} DecimalIsOneIff(d: Digits, s: string, acc: nat)
    requires s != "" && AllDecimal(d, s)
    ensures Decimal(d, s, acc) == 1 <==> acc == 0 && ZerosThenOne(d, s)
    decreases |s|
  {
    if |s| == 1 {
      assert s[1..] == "";
    } else {
      DecimalIsOneIff(d, s[1..], 10 * acc + d.decimal(s[0]).value);
    }
  }

  lemma {:induction false} ZerosThenOneIff(d: Digits, s: string)
    ensures ZerosThenOne(d, s) <==>
              && s != "" && (forall i :: 0 <= i < |s| - 1 ==> d.decimal(s[i]) == Some(0))
              && d.decimal(s[|s| - 1]) == Some(1)
    ensures ZerosThenOne(d, s) ==> AllDecimal(d, s)
  {
    if |s| > 1 {
      ZerosThenOneIff(d, s[1..]);
      assert forall i :: 0 <= i < |s[1..]| ==> s[1..][i] == s[i + 1];
      assert forall i :: 0 < i < |s| ==> s[i] == s[1..][i - 1];
    } else if s != "" {
      assert AllDecimal(d, s[1..]);
    }
  }

  lemma MatchesIffCurrent(d: Digits, version: Option<string>)
    ensures VersionMatches(d, version) == Ok(true) <==> IsCurrent(d, version)
  {
    if version.Some? {
      var s := version.value;
      AllDigitsIff(d, s);
      ZerosThenOneIff(d, s);
      hide AllDigits, ZerosThenOne, Decimal;
      if s != "" && AllDecimal(d, s) {
        DecimalIsOneIff(d, s, 0);
      }
    }
  }

  /** A version made of digits of which one has no decimal value, or which are too many. */
  predicate Raises(d: Digits, version: Option<string>) {
    version.Some? &&
    var s := version.value;
    && s != "" && (forall i :: 0 <= i < |s| ==> d.isDigit(s[i]))
    && ((exists i :: 0 <= i < |s| && d.decimal(s[i]).None?) || 0 < d.maxDigits < |s|)
  }

  lemma VersionRaisesIff(d: Digits, version: Option<string>)
    ensures VersionMatches(d, version).ValueError? <==> Raises(d, version)
  {
    if version.Some? {
      var s := version.value;
      AllDigitsIff(d, s);
      AllDecimalIff(d, s);
      hide AllDigits, AllDecimal, Decimal;
      assert AllDecimal(d, s) <==> !exists i :: 0 <= i < |s| && d.decimal(s[i]).None?;
    }
  }

  /** Creation raises exactly for a last metrics version that does. */
  lemma CreateRaisesIff(
    user: Option<Metrics>, entries: seq<Item>, crtFeatures: string, crtVersion: string, d: Digits)
    requires Gives(user, entries)
    ensures Create(user, crtFeatures, crtVersion, d).ValueError? <==>
            Raises(d, LastValue(entries, "IoTSDKMetricsVersion"))
  {
    assert entries == EntriesOf(user);
    VersionRaisesIff(d, LastValue(entries, METRICS_VERSION));
    hide Raises, VersionMatches;
  }

  /** ASCII digits with their values, and superscript two, a digit without a decimal value. */
  const ASCII_AND_SUPERSCRIPT := Digits(
    c => '0' <= c <= '9' || c == '\U{00B2}',
    c => if '0' <= c <= '9' then Some((c - '0') as int) else None,
    0)

  /** A user whose metrics version is a superscript two makes creation raise. */
  lemma SuperscriptVersionRaises(d: Digits, crtFeatures: string, crtVersion: string)
    requires d.isDigit('\U{00B2}') && d.decimal('\U{00B2}').None?
    ensures var user := Some(Metrics("sdk", Some([Item(METRICS_VERSION, "\U{00B2}")])));
            Create(user, crtFeatures, crtVersion, d).ValueError?
    ensures IsPython(ASCII_AND_SUPERSCRIPT)
    ensures ASCII_AND_SUPERSCRIPT.isDigit('\U{00B2}') && ASCII_AND_SUPERSCRIPT.decimal('\U{00B2}').None?
  {
    var version := "\U{00B2}";
    var entries := [Item(METRICS_VERSION, version)];
    var user := Some(Metrics("sdk", Some(entries)));
    assert entries[1..] == [] && version[1..] == "";
    assert LastValue(entries[1..], METRICS_VERSION).None?;
    assert LastValue(EntriesOf(user), METRICS_VERSION) == Some(version);
    assert AllDigits(d, version[1..]);
    assert IsDigit(d, version) && !AllDecimal(d, version);
    assert version[0] == '\U{00B2}' && forall i :: 0 <= i < |version| ==> version[i] == version[0];
    CreateRaisesIff(user, entries, crtFeatures, crtVersion, d);
  }

  lemma {:induction false} OthersOfConcat(m: seq<Item>, n: seq<Item>)
    ensures Others(m + n) == Others(m) + Others(n)
  {
    if m == [] {
      assert m + n == n;
    } else {
      assert (m + n)[1..] == m[1..] + n;
      OthersOfConcat(m[1..], n);
    }
  }

  lemma {:induction false} OthersOfOthers(m: seq<Item>)
    requires forall key :: Has(m, key) ==> !Reserved(key)
    ensures Others(m) == m
  {
    if m == [] {
    } else {
      assert Has(m, m[0].key);
      assert forall key :: Has(m[1..], key) ==> Has(m, key);
      OthersOfOthers(m[1..]);
    }
  }

  lemma OthersOfLaid(others: Dict, crtVersion: string, features: string)
    requires forall key :: Has(others, key) ==> !Reserved(key)
    ensures Others(Laid(others, crtVersion, features)) == others
  {
    var tail := Tail(features);
    TailEntries(features, FEATURE);
    OthersOfOthers(others);
    OthersOfConcat(others, tail);
    var m := Laid(others, crtVersion, features);
    assert m[1..] == others + tail;
    assert Others(m) == Others(m[1..]);
  }

  /** Feeding the result back in with the same CRT list and version gives the same entries in the same order. */
  lemma CreateIsIdempotent(user: Option<Metrics>, crtFeatures: string, crtVersion: string, d: Digits)
    requires IsPython(d)
    requires Create(user, crtFeatures, crtVersion, d).Ok?
    ensures var r := Create(user, crtFeatures, crtVersion, d);
            Create(Some(r.value), crtFeatures, crtVersion, d) == r
  {
    var entries := EntriesOf(user);
    var others := SetAll([], Others(entries));
    var matches := VersionMatches(d, LastValue(entries, METRICS_VERSION)).value;
    var given := if matches then UserFeature(entries) else "";
    var merged := F.Merge(crtFeatures, given);
    var laid := Laid(others, crtVersion, merged);
    OthersAreUnique(entries);
    OthersOfLaid(others, crtVersion, merged);
    SetAllAppends([], others);
    assert [] + others == others;
    LaidEntries(others, crtVersion, merged, METRICS_VERSION);
    LaidEntries(others, crtVersion, merged, FEATURE);
    F.LastOfUnique(laid, METRICS_VERSION);
    F.LastOfUnique(laid, FEATURE);
    OneIsCurrent(d, "1");
    F.MergeAbsorbs(crtFeatures, given);
  }

  lemma OneIsCurrent(d: Digits, s: string)
    requires IsPython(d) && |s| == 1 && s[0] == '1'
    ensures VersionMatches(d, Some(s)) == Ok(true)
  {
    assert AllDigits(d, s[1..]) && AllDecimal(d, s[1..]);
    assert d.decimal(s[0]) == Some(1);
    assert Decimal(d, s, 0) == Decimal(d, s[1..], 1);
  }

  lemma {:induction false} KeysOfConcat(m: Dict, n: Dict)
    ensures Keys(m + n) == Keys(m) + Keys(n)
  {
    if m == [] {
      assert m + n == n;
    } else {
      assert (m + n)[1..] == m[1..] + n;
      KeysOfConcat(m[1..], n);
    }
  }

  lemma KeysOfLaid(others: Dict, crtVersion: string, features: string)
    ensures Keys(Laid(others, crtVersion, features)) == [CRT_VERSION] + Keys(others) + [FEATURE, METRICS_VERSION]
  {
    var tail := Tail(features);
    assert tail[1..] == [Item(METRICS_VERSION, "1")] && tail[1..][1..] == [];
    assert Keys(tail[1..]) == [METRICS_VERSION] + Keys(tail[1..][1..]);
    assert Keys(tail) == [FEATURE] + Keys(tail[1..]) == [FEATURE, METRICS_VERSION];
    var m := Laid(others, crtVersion, features);
    assert m[0].key == CRT_VERSION && m[1..] == others + tail;
    KeysOfConcat(others, tail);
    assert Keys(m) == [CRT_VERSION] + (Keys(others) + Keys(tail));
    hide *;
    AppendAssociates([CRT_VERSION], Keys(others), Keys(tail));
  }

  /** Which entries are passed through, and that their order is kept. */
  lemma OthersFilter(m: seq<Item>, x: Item)
    ensures Others([]) == []
    ensures Others(m + [x]) == if Passed(x.key) then Others(m) + [x] else Others(m)
  {
    OthersOfConcat(m, [x]);
    assert [x][1..] == [];
    assert Others([x]) == if Passed(x.key) then [x] + Others([]) else Others([]);
  }

  /** The order of the keys: the user's own in order of first appearance, between the CRT's three. */
  lemma CreatedOrder(
    user: Option<Metrics>, entries: seq<Item>, crtFeatures: string, crtVersion: string, d: Digits)
    requires Gives(user, entries) && Create(user, crtFeatures, crtVersion, d).Ok?
    ensures Keys(Create(user, crtFeatures, crtVersion, d).value.entries.value)
         == ["CRTVersion"] + NewKeys([], Others(entries)) + ["IoTSDKFeature", "IoTSDKMetricsVersion"]
  {
    assert entries == EntriesOf(user);
    var matches := VersionMatches(d, LastValue(entries, METRICS_VERSION)).value;
    var given := if matches then UserFeature(entries) else "";
    KeysAfterSetAll([], Others(entries));
    assert Keys([]) + NewKeys([], Others(entries)) == NewKeys([], Others(entries));
    KeysOfLaid(SetAll([], Others(entries)), crtVersion, F.Merge(crtFeatures, given));
  }
}
