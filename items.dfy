/**
 * The command-line item parser of ca2a (`parse_items`).
 *
 * Every item has the shape `key SEP value`, where the key is a non-empty run
 * of characters other than ':' and '=', SEP is one of "=", ":=" and ":"
 * (tried in that order), and the value is the non-empty rest of the item,
 * kept verbatim. "=" stores a string parameter, ":=" a JSON-decoded
 * parameter and ":" an HTTP header. The first bad item aborts the parse.
 */
module Items {
  import opened Wrappers
  import opened JsonValues

  // ---------------------------------------------------------------------
  // The item pattern: key, separator, value
  // ---------------------------------------------------------------------

  /** The three separators, in the order the pattern's alternation tries them. */
  const Eq: string := "="
  const ColonEq: string := ":="
  const Colon: string := ":"

  /** The characters a key may not contain. */
  predicate IsSepChar(c: char) {
    c == ':' || c == '='
  }

  /** A string the pattern's first group accepts: one or more non-separator characters. */
  predicate IsKey(k: string) {
    |k| > 0 && forall i :: 0 <= i < |k| ==> !IsSepChar(k[i])
  }

  /** Position of a separator in the alternation `=|:=|:`. */
  function SepRank(sep: string): nat {
    if sep == Eq then 0 else if sep == ColonEq then 1 else 2
  }

  /** The three groups of a successful match. */
  datatype Groups = Groups(key: string, separator: string, value: string)

  /** `g` is one way of reading `item` as `key SEP value`, whichever the pattern would pick. */
  ghost predicate Matches(item: string, g: Groups) {
    IsKey(g.key)
    && (g.separator == Eq || g.separator == ColonEq || g.separator == Colon)
    && |g.value| > 0
    && item == g.key + g.separator + g.value
  }

  /**
   * The backtracking engine tries `a` before `b`: the greedy key is tried
   * longest first, and for each key length the separators in alternation
   * order (the greedy value is then the whole rest, so it is determined).
   */
  ghost predicate TriedBefore(a: Groups, b: Groups) {
    |a.key| > |b.key| || (|a.key| == |b.key| && SepRank(a.separator) < SepRank(b.separator))
  }

  /** Scans the longest prefix of `s` free of ':' and '='. */
  function KeyLength(s: string): (n: nat)
    ensures n <= |s|
    ensures forall i :: 0 <= i < n ==> !IsSepChar(s[i])
    ensures n < |s| ==> IsSepChar(s[n])
  {
    if s == [] || IsSepChar(s[0]) then 0 else 1 + KeyLength(s[1..])
  }

  /** The pattern `^([^:=]+)(=|:=|:)(.+)$` (DOTALL) applied to one item, as an explicit scan. */
  function MatchItem(item: string): (r: Option<Groups>)
    ensures r.Some? ==> Matches(item, r.value)
  {
    var p := KeyLength(item);
    if p == 0 || p == |item| then None
    else if item[p] == '=' then
      if p + 1 < |item| then
        assert item == item[..p] + Eq + item[p + 1..];
        Some(Groups(item[..p], Eq, item[p + 1..]))
      else None
    else if p + 2 < |item| && item[p + 1] == '=' then
      assert item == item[..p] + ColonEq + item[p + 2..];
      Some(Groups(item[..p], ColonEq, item[p + 2..]))
    else if p + 1 < |item| then
      assert item == item[..p] + Colon + item[p + 1..];
      Some(Groups(item[..p], Colon, item[p + 1..]))
    else None
  }

  /** Any reading of an item fixes its key: it is the maximal separator-free prefix. */
  lemma KeyIsMaximal(item: string, g: Groups)
    requires Matches(item, g)
    ensures KeyLength(item) == |g.key|
    ensures item[..|g.key|] == g.key
  {
    var k := |g.key|;
    assert item[..k] == g.key;
    assert item[k] == g.separator[0];
    assert IsSepChar(item[k]);
    forall i | 0 <= i < k ensures !IsSepChar(item[i]) {
      assert item[i] == g.key[i];
    }
  }

  /**
   * Whenever some reading of `item` exists, MatchItem finds one: the same
   * reading, or, for a `k:` reading whose value starts with '=' and goes on,
   * the `k:=` reading of the same text.
   */
  lemma MatchItemFindsReading(item: string, g: Groups)
    requires Matches(item, g)
    ensures MatchItem(item).Some?
    ensures MatchItem(item).value == g
      || (g.separator == Colon && MatchItem(item).value == Groups(g.key, ColonEq, g.value[1..]))
  {
    KeyIsMaximal(item, g);
    var p := |g.key|;
    assert item[p..] == g.separator + g.value by {
      assert item == g.key + (g.separator + g.value);
    }
    if g.separator == Eq {
      SeparatorTail(item, p, 1, g.value);
      assert MatchItem(item) == Some(Groups(item[..p], Eq, item[p + 1..]));
    } else if g.separator == ColonEq {
      SeparatorTail(item, p, 2, g.value);
      assert MatchItem(item) == Some(Groups(item[..p], ColonEq, item[p + 2..]));
    } else {
      SeparatorTail(item, p, 1, g.value);
      if p + 2 < |item| && item[p + 1] == '=' {
        assert item[p + 2..] == g.value[1..];
      }
    }
  }

  /** The text after a separator of length `n` at `p` is the value. */
  lemma SeparatorTail(item: string, p: nat, n: nat, value: string)
    requires p + n <= |item| && |item[p..]| == n + |value| && item[p..][n..] == value
    ensures item[p + n..] == value
  {
    assert item[p + n..] == item[p..][n..];
  }

  /** MatchItem agrees with the pattern: it fails exactly when no reading exists, and otherwise picks the first one. */
  lemma MatchItemIsRegexMatch(item: string)
    ensures MatchItem(item).None? <==> (forall g :: !Matches(item, g))
    ensures MatchItem(item).Some? ==>
      forall g :: Matches(item, g) ==> g == MatchItem(item).value || TriedBefore(MatchItem(item).value, g)
  {
    forall g | Matches(item, g)
      ensures MatchItem(item).Some? && (g == MatchItem(item).value || TriedBefore(MatchItem(item).value, g))
    {
      MatchItemFindsReading(item, g);
      KeyIsMaximal(item, g);
    }
  }

  // ---------------------------------------------------------------------
  // One item: the inner `parse` closure
  // ---------------------------------------------------------------------

  /** What one accepted item stores: a parameter or a header. */
  datatype Entry = Param(key: string, value: Json) | Header(key: string, text: string)

  /**
   * What `parse` raises. All but the last are `ValueError`s, which `main`
   * reports as usage errors; the last escapes `main`.
   */
  datatype ItemError =
    | InvalidItem(item: string)          // "Invalid item: ..."
    | InvalidJsonValue(value: string)    // "Invalid JSON value: ..."
    | UnsupportedSeparator(separator: string)  // "Unsupported separator: ...", unreachable
    | LoadsValueError(message: string)   // another ValueError of `json.loads`, passed through
    | LoadsException(message: string)    // an exception of `json.loads` that is not a ValueError

  /**
   * Routes one item by its separator. `jsonLoads` stands for `json.loads`;
   * only its `JSONDecodeError` is turned into "Invalid JSON value", anything
   * else it raises leaves `parse` unchanged.
   */
  function ParseItem(item: string, jsonLoads: string -> Loaded): (r: Result<Entry, ItemError>)
    ensures r.Failure? ==> !r.error.UnsupportedSeparator?
    ensures r.Failure? ==> (r.error == InvalidItem(item) <==> MatchItem(item).None?)
    ensures r.Failure? && MatchItem(item).Some? ==> MatchItem(item).value.separator == ColonEq
    ensures r.Success? ==> MatchItem(item).Some? && r.value.key == MatchItem(item).value.key
  {
    match MatchItem(item)
    case None => Failure(InvalidItem(item))
    case Some(Groups(key, separator, value)) =>
      match separator
      case "=" => Success(Param(key, Str(value)))
      case ":=" =>
        (match jsonLoads(value)
         case Decoded(parsed) => Success(Param(key, parsed))
         case DecodeError => Failure(InvalidJsonValue(value))
         case OtherValueError(message) => Failure(LoadsValueError(message))
         case OtherException(message) => Failure(LoadsException(message)))
      case ":" => Success(Header(key, value))
      case _ => assert false; Failure(UnsupportedSeparator(separator))
  }

  /** `k=v` stores the string `v` as parameter `k`. */
  lemma StringParamItem(k: string, v: string, jsonLoads: string -> Loaded)
    requires IsKey(k) && |v| > 0
    ensures ParseItem(k + Eq + v, jsonLoads) == Success(Param(k, Str(v)))
  {
    var g := Groups(k, Eq, v);
    assert Matches(k + Eq + v, g);
    MatchItemFindsReading(k + Eq + v, g);
  }

  /**
   * `k:=v` stores the decoding of `v` as parameter `k`; never a header. A
   * decode error fails naming `v`; any other error of the decoder is raised
   * as it is.
   */
  lemma JsonParamItem(k: string, v: string, jsonLoads: string -> Loaded)
    requires IsKey(k) && |v| > 0
    ensures ParseItem(k + ColonEq + v, jsonLoads) ==
      match jsonLoads(v)
      case Decoded(parsed) => Success(Param(k, parsed))
      case DecodeError => Failure(InvalidJsonValue(v))
      case OtherValueError(message) => Failure(LoadsValueError(message))
      case OtherException(message) => Failure(LoadsException(message))
  {
    var g := Groups(k, ColonEq, v);
    assert Matches(k + ColonEq + v, g);
    MatchItemFindsReading(k + ColonEq + v, g);
  }

  /**
   * `k:v` stores `v` as header `k`, unless `v` is `=` followed by more text,
   * in which case the item is read as `k:=` instead.
   */
  lemma HeaderItem(k: string, v: string, jsonLoads: string -> Loaded)
    requires IsKey(k) && |v| > 0
    requires v[0] == '=' ==> |v| == 1
    ensures ParseItem(k + Colon + v, jsonLoads) == Success(Header(k, v))
  {
    var item := k + Colon + v;
    var g := Groups(k, Colon, v);
    assert Matches(item, g);
    MatchItemFindsReading(item, g);
  }

  /** A bare `k:=` backtracks to the header `k` with value "=". */
  lemma BareColonEqIsHeader(k: string, jsonLoads: string -> Loaded)
    requires IsKey(k)
    ensures ParseItem(k + ":=", jsonLoads) == Success(Header(k, "="))
  {
    assert k + ":=" == k + Colon + "=";
    HeaderItem(k, "=", jsonLoads);
  }

  /** `k:==` is a JSON parameter whose text is "=", so it fails when "=" does not decode. */
  lemma ColonEqEqIsJson(k: string, jsonLoads: string -> Loaded)
    requires IsKey(k) && jsonLoads("=") == DecodeError
    ensures ParseItem(k + ":==", jsonLoads) == Failure(InvalidJsonValue("="))
  {
    assert k + ":==" == k + ColonEq + "=";
    JsonParamItem(k, "=", jsonLoads);
  }

  /** An item is rejected as invalid exactly when it has no `key SEP value` reading. */
  lemma InvalidItemIffNoReading(item: string, jsonLoads: string -> Loaded)
    ensures ParseItem(item, jsonLoads) == Failure(InvalidItem(item)) <==> (forall g :: !Matches(item, g))
  {
    MatchItemIsRegexMatch(item);
  }

  // ---------------------------------------------------------------------
  // The whole list: specification
  // ---------------------------------------------------------------------

  /** The two dictionaries `parse_items` returns. */
  datatype Maps = Maps(params: map<string, Json>, headers: map<string, string>)

  /** Stores one entry: a parameter touches only `params`, a header only `headers`. */
  function Store(m: Maps, e: Entry): Maps {
    match e
    case Param(k, v) => m.(params := m.params[k := v])
    case Header(k, t) => m.(headers := m.headers[k := t])
  }

  /** The maps built by storing `entries` in order into empty dictionaries. */
  function Collect(entries: seq<Entry>): Maps {
    if entries == [] then Maps(map[], map[])
    else Store(Collect(entries[..|entries| - 1]), entries[|entries| - 1])
  }

  /** Parses items left to right; the first failing item's error is the result. */
  function ParseAll(items: seq<string>, jsonLoads: string -> Loaded): Result<seq<Entry>, ItemError> {
    if items == [] then Success([])
    else
      match ParseAll(items[..|items| - 1], jsonLoads)
      case Failure(e) => Failure(e)
      case Success(entries) =>
        match ParseItem(items[|items| - 1], jsonLoads)
        case Failure(e) => Failure(e)
        case Success(entry) => Success(entries + [entry])
  }

  /** What `parse_items` returns or raises. */
  function Parsed(items: seq<string>, jsonLoads: string -> Loaded): Result<Maps, ItemError> {
    match ParseAll(items, jsonLoads)
    case Failure(e) => Failure(e)
    case Success(entries) => Success(Collect(entries))
  }

  // ---------------------------------------------------------------------
  // The whole list: the loop of `parse_items`
  // ---------------------------------------------------------------------

  /** The loop over the items, mutating the two dictionaries as `parse` does. */
  method ParseItems(items: seq<string>, jsonLoads: string -> Loaded) returns (r: Result<Maps, ItemError>)
    ensures r == Parsed(items, jsonLoads)
  {
    var params: map<string, Json> := map[];
    var headers: map<string, string> := map[];
    ghost var entries: seq<Entry> := [];
    for i := 0 to |items|
      invariant ParseAll(items[..i], jsonLoads) == Success(entries)
      invariant Maps(params, headers) == Collect(entries)
    {
      assert items[..i + 1][..i] == items[..i] && items[..i + 1][i] == items[i];
      var parsed := ParseItem(items[i], jsonLoads);
      if parsed.Failure? {
        assert ParseAll(items[..i + 1], jsonLoads) == Failure(parsed.error);
        FailureIsFinal(items, i + 1, jsonLoads);
        assert items[..|items|] == items;
        return Failure(parsed.error);
      }
      match parsed.value {
        case Param(k, v) => params := params[k := v];
        case Header(k, t) => headers := headers[k := t];
      }
      assert (entries + [parsed.value])[..|entries|] == entries;
      assert ParseAll(items[..i + 1], jsonLoads) == Success(entries + [parsed.value]);
      entries := entries + [parsed.value];
    }
    assert items[..|items|] == items;
    r := Success(Maps(params, headers));
  }

  /** Once a prefix fails, every longer prefix fails with the same error. */
  lemma {:induction false} FailureIsFinal(items: seq<string>, n: nat, jsonLoads: string -> Loaded)
    requires n <= |items| && ParseAll(items[..n], jsonLoads).Failure?
    ensures ParseAll(items, jsonLoads) == ParseAll(items[..n], jsonLoads)
    decreases |items| - n
  {
    if n < |items| {
      assert items[..n + 1][..n] == items[..n];
      FailureIsFinal(items, n + 1, jsonLoads);
    } else {
      assert items[..n] == items;
    }
  }

  // ---------------------------------------------------------------------
  // Properties of the parse
  // ---------------------------------------------------------------------

  /** On success there is one entry per item, in item order. */
  lemma {:induction false} ParseAllPointwise(items: seq<string>, jsonLoads: string -> Loaded)
    requires ParseAll(items, jsonLoads).Success?
    ensures |ParseAll(items, jsonLoads).value| == |items|
    ensures forall i :: 0 <= i < |items| ==> ParseItem(items[i], jsonLoads) == Success(ParseAll(items, jsonLoads).value[i])
  {
    if items != [] {
      var init := items[..|items| - 1];
      ParseAllPointwise(init, jsonLoads);
      forall i | 0 <= i < |items| - 1
        ensures ParseItem(items[i], jsonLoads) == Success(ParseAll(items, jsonLoads).value[i])
      {
        assert items[i] == init[i];
      }
    }
  }

  /**
   * All or nothing: the parse fails exactly when some item fails, and then
   * with the error of the first failing item.
   */
  lemma {:induction false} ParseAllFailsAtFirstBadItem(items: seq<string>, jsonLoads: string -> Loaded)
    ensures ParseAll(items, jsonLoads).Failure? <==>
      (exists i :: 0 <= i < |items| && ParseItem(items[i], jsonLoads).Failure?)
    ensures ParseAll(items, jsonLoads).Failure? ==>
      exists i :: 0 <= i < |items|
        && ParseItem(items[i], jsonLoads) == Failure(ParseAll(items, jsonLoads).error)
        && forall j :: 0 <= j < i ==> ParseItem(items[j], jsonLoads).Success?
  {
    if items != [] {
      var init := items[..|items| - 1];
      var last := |items| - 1;
      ParseAllFailsAtFirstBadItem(init, jsonLoads);
      forall i | 0 <= i < last ensures items[i] == init[i] { }
      if ParseAll(init, jsonLoads).Success? {
        if ParseAll(items, jsonLoads).Success? {
          ParseAllPointwise(items, jsonLoads);
        } else {
          assert ParseItem(items[last], jsonLoads).Failure?;
          forall j | 0 <= j < last ensures ParseItem(items[j], jsonLoads).Success? {
            assert ParseItem(init[j], jsonLoads).Success?;
          }
        }
      } else {
        var i :| 0 <= i < |init|
          && ParseItem(init[i], jsonLoads) == Failure(ParseAll(init, jsonLoads).error)
          && forall j :: 0 <= j < i ==> ParseItem(init[j], jsonLoads).Success?;
        assert ParseItem(items[i], jsonLoads) == Failure(ParseAll(items, jsonLoads).error);
      }
    }
  }

  /** The entry stores key `k` in the header map (`header`) or in the parameter map (`!header`). */
  predicate StoresIn(e: Entry, k: string, header: bool) {
    e.Header? == header && e.key == k
  }

  /** The keys of the header map (`header`) or of the parameter map (`!header`). */
  function Keys(m: Maps, header: bool): set<string> {
    if header then m.headers.Keys else m.params.Keys
  }

  /** `entries[i]` is the last entry that stores `k` in the chosen map. */
  ghost predicate IsLast(entries: seq<Entry>, k: string, header: bool, i: int) {
    0 <= i < |entries| && StoresIn(entries[i], k, header)
    && forall j :: i < j < |entries| ==> !StoresIn(entries[j], k, header)
  }

  /**
   * A key is in a map exactly when some entry stores it there, and the last
   * such entry wins. Parameters and headers are filled by the same rule.
   */
  lemma {:induction false} CollectLastWins(entries: seq<Entry>, k: string, header: bool)
    ensures k in Keys(Collect(entries), header) <==>
      exists i :: 0 <= i < |entries| && StoresIn(entries[i], k, header)
    ensures k in Keys(Collect(entries), header) ==>
      exists i :: IsLast(entries, k, header, i)
        && (if header then Collect(entries).headers[k] == entries[i].text
            else Collect(entries).params[k] == entries[i].value)
  {
    if entries != [] {
      var init := entries[..|entries| - 1];
      var last := |entries| - 1;
      CollectLastWins(init, k, header);
      forall i | 0 <= i < last ensures entries[i] == init[i] { }
      if StoresIn(entries[last], k, header) {
        assert IsLast(entries, k, header, last);
      } else if k in Keys(Collect(init), header) {
        var i :| IsLast(init, k, header, i)
          && (if header then Collect(init).headers[k] == init[i].text
              else Collect(init).params[k] == init[i].value);
        assert IsLast(entries, k, header, i);
      }
    }
  }

  /** The item parsed into a parameter entry for `k`. */
  predicate StoresParam(r: Result<Entry, ItemError>, k: string) {
    r.Success? && r.value.Param? && r.value.key == k
  }

  /** The item parsed into a header entry for `k`. */
  predicate StoresHeader(r: Result<Entry, ItemError>, k: string) {
    r.Success? && r.value.Header? && r.value.key == k
  }

  /**
   * On success, every parameter in the result comes from the last item that
   * stores that key as a parameter, every header from the last item that
   * stores it as a header; the two maps are filled independently.
   */
  lemma ParsedLastItemWins(items: seq<string>, jsonLoads: string -> Loaded, k: string)
    requires Parsed(items, jsonLoads).Success?
    ensures var m := Parsed(items, jsonLoads).value;
      k in m.params ==>
        exists i :: 0 <= i < |items| && ParseItem(items[i], jsonLoads) == Success(Param(k, m.params[k]))
          && forall j :: i < j < |items| ==> !StoresParam(ParseItem(items[j], jsonLoads), k)
    ensures var m := Parsed(items, jsonLoads).value;
      k in m.headers ==>
        exists i :: 0 <= i < |items| && ParseItem(items[i], jsonLoads) == Success(Header(k, m.headers[k]))
          && forall j :: i < j < |items| ==> !StoresHeader(ParseItem(items[j], jsonLoads), k)
  {
    var entries := ParseAll(items, jsonLoads).value;
    ParseAllPointwise(items, jsonLoads);
    CollectLastWins(entries, k, false);
    CollectLastWins(entries, k, true);
    var m := Collect(entries);
    if k in m.params {
      var i :| IsLast(entries, k, false, i) && m.params[k] == entries[i].value;
      assert ParseItem(items[i], jsonLoads) == Success(Param(k, m.params[k]));
    }
    if k in m.headers {
      var i :| IsLast(entries, k, true, i) && m.headers[k] == entries[i].text;
      assert ParseItem(items[i], jsonLoads) == Success(Header(k, m.headers[k]));
    }
  }

  /** A run of non-separator characters is scanned to its end. */
  lemma KeyLengthOfKey(s: string)
    requires IsKey(s)
    ensures KeyLength(s) == |s|
  {
  }

  /** Conversely, when every item parses, the parse succeeds with their entries in order. */
  lemma {:induction false} ParseAllOfGoodItems(items: seq<string>, entries: seq<Entry>, jsonLoads: string -> Loaded)
    requires |entries| == |items|
    requires forall i :: 0 <= i < |items| ==> ParseItem(items[i], jsonLoads) == Success(entries[i])
    ensures ParseAll(items, jsonLoads) == Success(entries)
    ensures Parsed(items, jsonLoads) == Success(Collect(entries))
  {
    if items != [] {
      var n := |items| - 1;
      forall i | 0 <= i < n ensures ParseItem(items[..n][i], jsonLoads) == Success(entries[..n][i]) {
        assert items[..n][i] == items[i];
      }
      ParseAllOfGoodItems(items[..n], entries[..n], jsonLoads);
      assert ParseItem(items[n], jsonLoads) == Success(entries[n]);
      assert ParseAll(items, jsonLoads) == Success(entries[..n] + [entries[n]]);
      assert entries[..n] + [entries[n]] == entries;
    }
  }

  /** The parse fails with the error of the first failing item, whichever it is. */
  lemma ParsedFailsAtFirstBadItem(items: seq<string>, i: nat, jsonLoads: string -> Loaded)
    requires i < |items| && ParseItem(items[i], jsonLoads).Failure?
    requires forall j :: 0 <= j < i ==> ParseItem(items[j], jsonLoads).Success?
    ensures Parsed(items, jsonLoads) == Failure(ParseItem(items[i], jsonLoads).error)
  {
    ParseAllFailsAtFirstBadItem(items, jsonLoads);
    var first :| 0 <= first < |items|
      && ParseItem(items[first], jsonLoads) == Failure(ParseAll(items, jsonLoads).error)
      && forall j :: 0 <= j < first ==> ParseItem(items[j], jsonLoads).Success?;
    assert first == i;
  }

  // The items of the concrete scenarios below, one lemma each, so that the
  // scenarios themselves need not unfold the scanner on literal strings.

  lemma NameAliceItem(jsonLoads: string -> Loaded)
    ensures ParseItem("name=Alice", jsonLoads) == Success(Param("name", Str("Alice")))
  {
    assert "name=Alice" == "name" + Eq + "Alice";
    StringParamItem("name", "Alice", jsonLoads);
  }

  lemma AgeThirtyItem(jsonLoads: string -> Loaded, thirty: Json)
    requires jsonLoads("30") == Decoded(thirty)
    ensures ParseItem("age:=30", jsonLoads) == Success(Param("age", thirty))
  {
    assert "age:=30" == "age" + ColonEq + "30";
    JsonParamItem("age", "30", jsonLoads);
  }

  lemma ApiKeyItem(jsonLoads: string -> Loaded)
    ensures ParseItem("x-api-key:secret", jsonLoads) == Success(Header("x-api-key", "secret"))
  {
    assert "x-api-key:secret" == "x-api-key" + Colon + "secret";
    HeaderItem("x-api-key", "secret", jsonLoads);
  }

  lemma BadTokenItem(jsonLoads: string -> Loaded)
    ensures ParseItem("bad_token", jsonLoads) == Failure(InvalidItem("bad_token"))
  {
    KeyLengthOfKey("bad_token");
  }

  /** A three-item example: `name=Alice age:=30 x-api-key:secret`. */
  lemma ExampleItems(jsonLoads: string -> Loaded, thirty: Json)
    requires jsonLoads("30") == Decoded(thirty)
    ensures Parsed(["name=Alice", "age:=30", "x-api-key:secret"], jsonLoads)
      == Success(Maps(map["name" := Str("Alice"), "age" := thirty], map["x-api-key" := "secret"]))
  {
    NameAliceItem(jsonLoads);
    AgeThirtyItem(jsonLoads, thirty);
    ApiKeyItem(jsonLoads);
    ParsedParamParamHeader("name=Alice", "age:=30", "x-api-key:secret", jsonLoads,
      "name", Str("Alice"), "age", thirty, "x-api-key", "secret");
  }

  lemma ParsedParamParamHeader(a: string, b: string, c: string, jsonLoads: string -> Loaded,
                               k0: string, v0: Json, k1: string, v1: Json, k2: string, t2: string)
    requires ParseItem(a, jsonLoads) == Success(Param(k0, v0))
    requires ParseItem(b, jsonLoads) == Success(Param(k1, v1))
    requires ParseItem(c, jsonLoads) == Success(Header(k2, t2))
    ensures Parsed([a, b, c], jsonLoads) == Success(Maps(map[k0 := v0, k1 := v1], map[k2 := t2]))
  {
    var e0, e1, e2 := Param(k0, v0), Param(k1, v1), Header(k2, t2);
    ParseAllOfGoodItems([a, b, c], [e0, e1, e2], jsonLoads);
    assert [e0, e1, e2][..2] == [e0, e1] && [e0, e1][..1] == [e0] && [e0][..0] == [];
    assert Collect([e0]) == Maps(map[k0 := v0], map[]);
    assert Collect([e0, e1]) == Maps(map[k0 := v0, k1 := v1], map[]);
  }

  /** One key may be a parameter and a header at once; each map keeps its own value. */
  lemma SameKeyInBothMaps(jsonLoads: string -> Loaded)
    ensures Parsed(["a=1", "a:2"], jsonLoads) == Success(Maps(map["a" := Str("1")], map["a" := "2"]))
  {
    var e0, e1 := Param("a", Str("1")), Header("a", "2");
    assert "a=1" == "a" + Eq + "1" && "a:2" == "a" + Colon + "2";
    StringParamItem("a", "1", jsonLoads);
    HeaderItem("a", "2", jsonLoads);
    ParseAllOfGoodItems(["a=1", "a:2"], [e0, e1], jsonLoads);
    assert [e0, e1][..1] == [e0] && [e0][..0] == [];
    assert Collect([e0]) == Maps(map["a" := Str("1")], map[]);
  }

  /** An item without a separator fails the whole parse, naming the item. */
  lemma BadTokenFails(jsonLoads: string -> Loaded)
    ensures Parsed(["name=Alice", "bad_token"], jsonLoads) == Failure(InvalidItem("bad_token"))
  {
    NameAliceItem(jsonLoads);
    BadTokenItem(jsonLoads);
    ParsedFailsAtFirstBadItem(["name=Alice", "bad_token"], 1, jsonLoads);
  }
}
