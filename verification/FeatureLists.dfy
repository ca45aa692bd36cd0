/**
 Feature lists of the IoT metrics: comma-separated pairs `id/value`, parsed into an insertion-ordered
 dictionary, merged, and printed back. A piece without a slash is ignored; a value may contain slashes.
 */
module FeatureLists {
  import opened Octets
  import opened StringDict

  predicate Without(s: string, c: char) {
    s == "" || (s[0] != c && Without(s[1..], c))
  }

  predicate AllWithout(pieces: seq<string>, c: char) {
    pieces == [] || (Without(pieces[0], c) && AllWithout(pieces[1..], c))
  }

  /** `s.split(",")`. */
  function Split(s: string): (r: seq<string>)
    ensures r != []
    ensures AllWithout(r, ',')
  {
    if s == "" then [""]
    else
      var rest := Split(s[1..]);
      if s[0] == ',' then [""] + rest
      else
        var first := [s[0]] + rest[0];
        assert first[1..] == rest[0];
        [first] + rest[1..]
  }

  /** `pair.split("/", 1)`, for a piece that has a slash. */
  function Cut(piece: string): Option<Item> {
    if piece == "" then None
    else if piece[0] == '/' then Some(Item("", piece[1..]))
    else
      match Cut(piece[1..])
      case None => None
      case Some(rest) => Some(Item([piece[0]] + rest.key, rest.val))
  }

  /** The pairs of a list, in order, repetitions included. */
  function Pairs(pieces: seq<string>): seq<Item> {
    if pieces == [] then []
    else
      match Cut(pieces[0])
      case None => Pairs(pieces[1..])
      case Some(pair) => [pair] + Pairs(pieces[1..])
  }

  function Parse(s: string): Dict {
    SetAll([], Pairs(Split(s)))
  }

  function PrintItem(x: Item): string {
    x.key + "/" + x.val
  }

  /** `",".join(f"{k}/{v}" for k, v in m.items())`. */
  function Print(m: Dict): string {
    if m == [] then ""
    else if |m| == 1 then PrintItem(m[0])
    else PrintItem(m[0]) + "," + Print(m[1..])
  }

  /** The value the list gives to a feature: that of its last pair. */
  function Feature(s: string, id: string): Option<string> {
    LastValue(Pairs(Split(s)), id)
  }

  function Merge(crt: string, user: string): string {
    Print(SetAll(Parse(crt), Parse(user)))
  }

  /** What can stand in a list without being read back as something else. */
  predicate PrintableItem(x: Item) {
    Without(x.key, '/') && Without(x.key, ',') && Without(x.val, ',')
  }

  predicate Printable(m: seq<Item>) {
    m == [] || (PrintableItem(m[0]) && Printable(m[1..]))
  }

  // ---- splitting inverts printing ----

  lemma {:induction false} WithoutConcat(a: string, b: string, c: char)
    ensures Without(a + b, c) <==> Without(a, c) && Without(b, c)
  {
    if a == "" {
      assert a + b == b;
    } else {
      assert (a + b)[1..] == a[1..] + b;
      WithoutConcat(a[1..], b, c);
    }
  }

  lemma {:induction false} SplitOfPiece(piece: string)
    requires Without(piece, ',')
    ensures Split(piece) == [piece]
  {
    if piece == "" {
    } else {
      SplitOfPiece(piece[1..]);
      assert [piece[0]] + piece[1..] == piece;
    }
  }

  lemma {:induction false} SplitAtComma(piece: string, rest: string)
    requires Without(piece, ',')
    ensures Split(piece + "," + rest) == [piece] + Split(rest)
  {
    var s := piece + "," + rest;
    if piece == "" {
      assert s[1..] == rest;
    } else {
      assert s[1..] == piece[1..] + "," + rest;
      SplitAtComma(piece[1..], rest);
      assert [piece[0]] + piece[1..] == piece;
    }
  }

  /** Cutting and printing one pair are inverses, whatever slashes the value has. */
  lemma {:induction false} CutOfPrint(key: string, val: string)
    requires Without(key, '/')
    ensures Cut(PrintItem(Item(key, val))) == Some(Item(key, val))
  {
    var s := PrintItem(Item(key, val));
    if key == "" {
      assert s[1..] == val;
    } else {
      assert s[1..] == PrintItem(Item(key[1..], val));
      CutOfPrint(key[1..], val);
      assert [key[0]] + key[1..] == key;
    }
  }

  lemma {:induction false} PrintOfCut(piece: string)
    requires Cut(piece).Some?
    ensures PrintItem(Cut(piece).value) == piece && Without(Cut(piece).value.key, '/')
  {
    var x := Cut(piece).value;
    if piece[0] == '/' {
      assert "" + "/" + piece[1..] == piece;
    } else {
      PrintOfCut(piece[1..]);
      assert x.key[1..] == Cut(piece[1..]).value.key;
      assert PrintItem(x) == [piece[0]] + PrintItem(Cut(piece[1..]).value);
    }
  }

  lemma PrintedItemIsOnePiece(x: Item)
    requires PrintableItem(x)
    ensures Without(PrintItem(x), ',')
  {
    WithoutConcat(x.key + "/", x.val, ',');
    WithoutConcat(x.key, "/", ',');
  }

  /** A printed dictionary splits into one well-formed piece for every item. */
  lemma {:induction false} PairsOfPrint(m: seq<Item>)
    requires Printable(m)
    ensures Pairs(Split(Print(m))) == m
    ensures m != [] ==> AllPairs(Split(Print(m)))
  {
    if m == [] {
    } else {
      var x := m[0];
      PrintedItemIsOnePiece(x);
      CutOfPrint(x.key, x.val);
      if |m| == 1 {
        SplitOfPiece(PrintItem(x));
        assert m == [x] + [];
      } else {
        SplitAtComma(PrintItem(x), Print(m[1..]));
        PairsOfPrint(m[1..]);
      }
    }
  }

  // ---- what is parsed can be printed ----

  lemma {:induction false} PairsArePrintable(pieces: seq<string>)
    requires AllWithout(pieces, ',')
    ensures Printable(Pairs(pieces))
  {
    if pieces == [] {
    } else {
      PairsArePrintable(pieces[1..]);
      if Cut(pieces[0]).Some? {
        var x := Cut(pieces[0]).value;
        PrintOfCut(pieces[0]);
        WithoutConcat(x.key + "/", x.val, ',');
        WithoutConcat(x.key, "/", ',');
      }
    }
  }

  lemma {:induction false} SetKeepsPrintable(m: Dict, key: string, val: string)
    requires Printable(m) && PrintableItem(Item(key, val))
    ensures Printable(Set(m, key, val))
  {
    if m == [] {
    } else if m[0].key == key {
      assert Set(m, key, val)[1..] == m[1..];
    } else {
      assert Set(m, key, val)[1..] == Set(m[1..], key, val);
      SetKeepsPrintable(m[1..], key, val);
    }
  }

  lemma {:induction false} SetAllKeepsPrintable(m: Dict, items: seq<Item>)
    requires Printable(m) && Printable(items)
    ensures Printable(SetAll(m, items))
    decreases |items|
  {
    if items == [] {
    } else {
      SetKeepsPrintable(m, items[0].key, items[0].val);
      SetAllKeepsPrintable(Set(m, items[0].key, items[0].val), items[1..]);
    }
  }

  lemma ParsedIsPrintable(s: string)
    ensures Printable(Parse(s)) && Unique(Parse(s))
  {
    PairsArePrintable(Split(s));
    SetAllKeepsPrintable([], Pairs(Split(s)));
    SetAllKeepsUnique([], Pairs(Split(s)));
  }

  /**
   The parse/print inverse, exactly: a dictionary survives printing and parsing iff no id repeats, no id has
   a slash or comma and no value has a comma. In particular every parsed dictionary survives.
   */
  lemma ParseOfPrintIff(m: Dict)
    ensures Parse(Print(m)) == m <==> Unique(m) && Printable(m)
  {
    if Unique(m) && Printable(m) {
      PairsOfPrint(m);
      SetAllAppends([], m);
      assert [] + m == m;
    }
    ParsedIsPrintable(Print(m));
  }

  // ---- the merge ----

  /** `_merge_feature_lists`: two loops filling one dictionary. */
  method MergeFeatureLists(crt: string, user: string) returns (r: string)
    ensures r == Merge(crt, user)
  {
    var merged: Dict := [];
    var pieces := Split(crt);
    for i := 0 to |pieces|
      invariant SetAll(merged, Pairs(pieces[i..])) == Parse(crt)
    {
      assert pieces[i..][1..] == pieces[i + 1..];
      var pair := Cut(pieces[i]);
      if pair.Some? {
        merged := Set(merged, pair.value.key, pair.value.val);
      }
    }
    assert pieces[|pieces|..] == [];
    pieces := Split(user);
    for i := 0 to |pieces|
      invariant SetAll(merged, Pairs(pieces[i..])) == SetAll(Parse(crt), Pairs(Split(user)))
    {
      assert pieces[i..][1..] == pieces[i + 1..];
      var pair := Cut(pieces[i]);
      if pair.Some? {
        merged := Set(merged, pair.value.key, pair.value.val);
      }
    }
    assert pieces[|pieces|..] == [];
    SetAllAssociates(Parse(crt), [], Pairs(Split(user)));
    r := Print(merged);
  }

  lemma ParseOfMerge(crt: string, user: string)
    ensures Parse(Merge(crt, user)) == SetAll(Parse(crt), Parse(user))
  {
    ParsedIsPrintable(crt);
    ParsedIsPrintable(user);
    SetAllKeepsPrintable(Parse(crt), Parse(user));
    SetAllKeepsUnique(Parse(crt), Parse(user));
    ParseOfPrintIff(SetAll(Parse(crt), Parse(user)));
  }

  lemma {:induction false} LastOfUnique(m: Dict, id: string)
    requires Unique(m)
    ensures LastValue(m, id) == Get(m, id)
  {
    if m == [] {
    } else {
      LastOfUnique(m[1..], id);
    }
  }

  lemma FeatureIsLookup(s: string, id: string)
    ensures Feature(s, id) == Get(Parse(s), id)
  {
    GetAfterSetAll([], Pairs(Split(s)), id);
  }

  /** The user's value wins wherever the user gives one; otherwise the CRT's value stays. */
  lemma MergePrefersUser(crt: string, user: string, id: string)
    ensures Feature(Merge(crt, user), id) == if Feature(user, id).Some? then Feature(user, id) else Feature(crt, id)
  {
    ParseOfMerge(crt, user);
    FeatureIsLookup(Merge(crt, user), id);
    FeatureIsLookup(crt, id);
    FeatureIsLookup(user, id);
    ParsedIsPrintable(user);
    GetAfterSetAll(Parse(crt), Parse(user), id);
    LastOfUnique(Parse(user), id);
  }

  /** Ids come in order of first appearance over both lists, each once. */
  lemma MergeKeepsOrder(crt: string, user: string)
    ensures Unique(Parse(Merge(crt, user)))
    ensures Keys(Parse(Merge(crt, user)))
         == NewKeys([], Pairs(Split(crt))) + NewKeys(Pairs(Split(crt)), Pairs(Split(user)))
  {
    var first, second := Pairs(Split(crt)), Pairs(Split(user));
    ParseOfMerge(crt, user);
    ParsedIsPrintable(Merge(crt, user));
    SetAllAssociates(Parse(crt), [], second);
    KeysAfterSetAll([], first);
    KeysAfterSetAll(Parse(crt), second);
    forall key ensures Has(Parse(crt), key) <==> Has(first, key) {
      GetAfterSetAll([], first, key);
      GetIffHas(Parse(crt), key);
    }
    NewKeysCongruent(Parse(crt), first, second);
    assert [] + NewKeys([], first) == NewKeys([], first);
  }

  lemma {:induction false} GetIffHas(m: Dict, key: string)
    ensures Get(m, key).Some? <==> Has(m, key)
  {
    if m == [] {
    } else {
      GetIffHas(m[1..], key);
    }
  }

  lemma MergeAssociates(a: string, b: string, c: string)
    ensures Merge(Merge(a, b), c) == Merge(a, Merge(b, c))
  {
    ParseOfMerge(a, b);
    ParseOfMerge(b, c);
    ParsedIsPrintable(b);
    SetAllAssociates(Parse(a), Parse(b), Parse(c));
  }

  /** Merging with the empty list on either side only normalises, and normal lists are fixed. */
  lemma MergeWithEmpty(s: string)
    ensures Merge(s, "") == Merge("", s) == Print(Parse(s))
    ensures Merge(Merge(s, ""), "") == Merge(s, "")
  {
    assert Split("") == [""];
    assert Parse("") == [];
    ParsedIsPrintable(s);
    SetAllAppends([], Parse(s));
    assert [] + Parse(s) == Parse(s);
    ParseOfMerge(s, "");
  }

  /** Merging the CRT list in a second time changes nothing. */
  lemma MergeAbsorbs(crt: string, user: string)
    ensures Merge(crt, Merge(crt, user)) == Merge(crt, user)
  {
    var m := Parse(crt);
    ParsedIsPrintable(crt);
    SetAllIsNoOp(m, m);
    SetAllAssociates(m, m, Parse(user));
    ParseOfMerge(crt, user);
  }

  predicate AllPairs(pieces: seq<string>) {
    pieces == [] || (Cut(pieces[0]).Some? && AllPairs(pieces[1..]))
  }

  /** Joining the pieces of a list gives the list back. */
  lemma {:induction false} PrintOfPairs(s: string)
    requires AllPairs(Split(s))
    ensures Print(Pairs(Split(s))) == s
  {
    var comma := FirstComma(s);
    var piece := s[..comma];
    if comma == |s| {
      assert piece == s;
      SplitOfPiece(s);
      PrintOfCut(s);
      assert Pairs([s]) == [Cut(s).value] + Pairs([]);
    } else {
      var rest := s[comma + 1..];
      assert s == piece + "," + rest;
      SplitAtComma(piece, rest);
      assert Split(s)[1..] == Split(rest);
      PrintOfCut(piece);
      PrintOfPairs(rest);
      assert Pairs(Split(s)) == [Cut(piece).value] + Pairs(Split(rest));
      assert Pairs(Split(rest)) != [];
    }
  }

  function FirstComma(s: string): (i: nat)
    ensures i <= |s| && Without(s[..i], ',') && (i < |s| ==> s[i] == ',')
  {
    if s == "" || s[0] == ',' then 0
    else
      var i := FirstComma(s[1..]);
      assert s[..i + 1][1..] == s[1..][..i];
      i + 1
  }

  /**
   Merging with nothing leaves a list exactly as it is iff it is empty or every piece is a pair and no id
   repeats.
   */
  lemma KeptVerbatimIff(s: string)
    ensures Merge(s, "") == s <==> s == "" || (AllPairs(Split(s)) && Unique(Pairs(Split(s))))
  {
    MergeWithEmpty(s);
    if s == "" {
      assert Split("") == [""];
    } else if AllPairs(Split(s)) && Unique(Pairs(Split(s))) {
      SetAllAppends([], Pairs(Split(s)));
      assert [] + Pairs(Split(s)) == Pairs(Split(s));
      PrintOfPairs(s);
    } else if Merge(s, "") == s {
      ParsedIsPrintable(s);
      PairsOfPrint(Parse(s));
      assert false;
    }
  }
}
