/**
 * `get_all_clickable_element_locators`: one pass over the candidate elements of a page that
 * builds the map from descriptive keys to locators. The browser's answers are inputs: an
 * `ElementView` per candidate, and the number of matches the driver reports for a locator.
 */
module ElementScan {
  import opened Wrappers
  import opened Strings
  import opened Json
  import opened ElementKeys
  import opened XPathRule

  /** A thirtyfour `By` locator. */
  datatype Locator = Id(id: string) | Css(selector: string) | XPath(path: string)

  /** `driver.find_all(locator)`: how many elements the locator matches, or a driver error. */
  type MatchCount = Locator -> Result<nat, string>

  /** The driver's answer to each question the scan asks about one candidate element. */
  datatype ElementView = ElementView(
    displayed: Result<bool, string>,
    tagName: Result<string, string>,
    text: Result<string, string>,
    idAttr: Result<Option<string>, string>,
    nameAttr: Result<Option<string>, string>,
    xpathScript: Result<Json, string>)

  /** Which rule of the priority chain produced a locator. */
  datatype Tier = IdTier | NameTier | XPathTier | PositionalTier

  datatype Choice = Choice(tier: Tier, locator: Locator)

  // ------------------------------------------------------------- selectors

  /** Rust's `replace('\'', "\\'")`: every single quote gets a backslash in front of it. */
  function EscapeQuotes(s: string): string {
    ReplaceAll(s, "'", "\\'")
  }

  /** `tag[name='value']`, with the value's quotes escaped. */
  function NameSelector(tag: string, name: string): string {
    tag + "[name='" + EscapeQuotes(name) + "']"
  }

  /** The last-resort selector: the tag at the element's overall enumeration position, counted from 1. */
  function PositionalSelector(tag: string, index: nat): string {
    "html body " + tag + ":nth-of-type(" + NatToString(index + 1) + ")"
  }

  /** Reads `\'` back as `'`; the inverse of `EscapeQuotes`. */
  function Unescape(s: string): string
    decreases |s|
  {
    if |s| >= 2 && s[0] == '\\' && s[1] == '\'' then "'" + Unescape(s[2..])
    else if s == [] then []
    else [s[0]] + Unescape(s[1..])
  }

  lemma EscapedHead(s: string)
    ensures EscapeQuotes(s) == [] || EscapeQuotes(s)[0] != '\''
  {
    if s != [] {
      if s[0] == '\'' {
        assert s == "'" + s[1..];
        ReplaceLeading("'", s[1..], "\\'");
      } else {
        assert s == [s[0]] + s[1..];
        ReplaceSkip(s[0], s[1..], "'", "\\'");
      }
    }
  }

  /** Escaping loses nothing: the name can be read back out of the selector. */
  lemma {:induction false} EscapeRoundTrip(s: string)
    ensures Unescape(EscapeQuotes(s)) == s
    decreases |s|
  {
    if s != [] {
      EscapeRoundTrip(s[1..]);
      var rest := EscapeQuotes(s[1..]);
      if s[0] == '\'' {
        assert s == "'" + s[1..];
        ReplaceLeading("'", s[1..], "\\'");
        assert EscapeQuotes(s) == "\\'" + rest;
        assert ("\\'" + rest)[2..] == rest;
      } else {
        assert s == [s[0]] + s[1..];
        ReplaceSkip(s[0], s[1..], "'", "\\'");
        EscapedHead(s[1..]);
        assert EscapeQuotes(s) == [s[0]] + rest;
        assert ([s[0]] + rest)[1..] == rest;
      }
    }
  }

  // ------------------------------------------------------------------ tiers

  function IdRule(e: ElementView, count: MatchCount): Result<Option<Locator>, string> {
    match e.idAttr
    case Failure(err) => Failure(err)
    case Success(None) => Success(None)
    case Success(Some(v)) =>
      if v == "" then Success(None)
      else
        match count(Id(v))
        case Failure(err) => Failure(err)
        case Success(n) => Success(if n == 1 then Some(Id(v)) else None)
  }

  function NameRule(tag: string, e: ElementView, count: MatchCount): Result<Option<Locator>, string> {
    match e.nameAttr
    case Failure(err) => Failure(err)
    case Success(None) => Success(None)
    case Success(Some(v)) =>
      if v == "" then Success(None)
      else
        var css := NameSelector(tag, v);
        match count(Css(css))
        case Failure(err) => Failure(err)
        case Success(n) => Success(if n == 1 then Some(Css(css)) else None)
  }

  function PathRule(e: ElementView, count: MatchCount): Result<Option<Locator>, string> {
    match e.xpathScript
    case Failure(err) => Failure(err)
    case Success(v) =>
      match ScriptXPath(v)
      case None => Success(None)
      case Some(x) =>
        match count(XPath(x))
        case Failure(err) => Failure(err)
        case Success(n) => Success(if n > 0 then Some(XPath(x)) else None)
  }

  /** The priority chain for one element; a driver error in any query it asks aborts with that error. */
  function ChooseLocator(tag: string, index: nat, e: ElementView, count: MatchCount): Result<Choice, string>
  {
    var byId :- IdRule(e, count);
    if byId.Some? then Success(Choice(IdTier, byId.value))
    else
      var byName :- NameRule(tag, e, count);
      if byName.Some? then Success(Choice(NameTier, byName.value))
      else
        var byPath :- PathRule(e, count);
        if byPath.Some? then Success(Choice(XPathTier, byPath.value))
        else Success(Choice(PositionalTier, Css(PositionalSelector(tag, index))))
  }

  // ---------------------------------------------- the chain, rule by rule

  /**
   * Which rule answers: the id rule when the id is unique, otherwise the name rule when the name
   * selector is unique, otherwise the path when it matches something, otherwise the position;
   * each rule is reached only when every earlier one answered without a driver error.
   */
  lemma ChooseLocatorTiers(tag: string, index: nat, e: ElementView, count: MatchCount)
    ensures var r := ChooseLocator(tag, index, e, count);
      && (r.Success? && r.value.tier == IdTier <==> IdUnique(e, count))
      && (r.Success? && r.value.tier == NameTier <==> IdPasses(e, count) && NameUnique(tag, e, count))
      && ((r.Success? && r.value.tier == XPathTier)
            <==> IdPasses(e, count) && NamePasses(tag, e, count) && XPathFound(e, count))
      && ((r.Success? && r.value.tier == PositionalTier)
            <==> IdPasses(e, count) && NamePasses(tag, e, count) && XPathPasses(e, count))
      && (r.Success? ==> r.value.locator == LocatorOf(r.value.tier, tag, index, e))
  {
  }


  /** The element has a non-empty id that matches exactly one element. */
  predicate IdUnique(e: ElementView, count: MatchCount) {
    e.idAttr.Success? && e.idAttr.value.Some? && e.idAttr.value.value != ""
    && count(Id(e.idAttr.value.value)) == Success(1)
  }

  /** The id rule answered without error and did not apply. */
  predicate IdPasses(e: ElementView, count: MatchCount) {
    e.idAttr.Success?
    && (e.idAttr.value.Some? && e.idAttr.value.value != "" ==>
          count(Id(e.idAttr.value.value)).Success? && count(Id(e.idAttr.value.value)).value != 1)
  }

  predicate NameUnique(tag: string, e: ElementView, count: MatchCount) {
    e.nameAttr.Success? && e.nameAttr.value.Some? && e.nameAttr.value.value != ""
    && count(Css(NameSelector(tag, e.nameAttr.value.value))) == Success(1)
  }

  predicate NamePasses(tag: string, e: ElementView, count: MatchCount) {
    e.nameAttr.Success?
    && (e.nameAttr.value.Some? && e.nameAttr.value.value != "" ==>
          var c := count(Css(NameSelector(tag, e.nameAttr.value.value)));
          c.Success? && c.value != 1)
  }

  /** The script produced a path that matches at least one element. */
  predicate XPathFound(e: ElementView, count: MatchCount) {
    e.xpathScript.Success? && ScriptXPath(e.xpathScript.value).Some?
    && var c := count(XPath(ScriptXPath(e.xpathScript.value).value));
       c.Success? && c.value > 0
  }

  predicate XPathPasses(e: ElementView, count: MatchCount) {
    e.xpathScript.Success?
    && (ScriptXPath(e.xpathScript.value).Some? ==>
          count(XPath(ScriptXPath(e.xpathScript.value).value)) == Success(0))
  }

  /** The locator each rule builds. */
  function LocatorOf(tier: Tier, tag: string, index: nat, e: ElementView): Locator {
    match tier
    case IdTier => Id(if e.idAttr.Success? && e.idAttr.value.Some? then e.idAttr.value.value else "")
    case NameTier =>
      Css(NameSelector(tag, if e.nameAttr.Success? && e.nameAttr.value.Some? then e.nameAttr.value.value else ""))
    case XPathTier =>
      XPath(if e.xpathScript.Success? && ScriptXPath(e.xpathScript.value).Some?
            then ScriptXPath(e.xpathScript.value).value else "")
    case PositionalTier => Css(PositionalSelector(tag, index))
  }

  /** A unique id wins even when the element also has a usable name. */
  lemma IdBeatsName(tag: string, index: nat, e: ElementView, count: MatchCount)
    requires IdUnique(e, count)
    ensures ChooseLocator(tag, index, e, count) == Success(Choice(IdTier, Id(e.idAttr.value.value)))
  {
  }

  /** With no id, no name and a path that matches nothing, the positional selector is used. */
  lemma FallbackWhenNothingMatches(tag: string, index: nat, e: ElementView, count: MatchCount)
    requires e.idAttr == Success(None) && e.nameAttr == Success(None)
    requires e.xpathScript.Success? && XPathPasses(e, count)
    ensures ChooseLocator(tag, index, e, count) == Success(Choice(PositionalTier, Css(PositionalSelector(tag, index))))
  {
  }


  // ------------------------------------------------------------------- scan

  /** A candidate produces an entry when it is displayed and its tag name can be read. */
  predicate Kept(e: ElementView) {
    e.displayed == Success(true) && e.tagName.Success?
  }

  /** The positions of the kept candidates among the first `n`, in order. */
  function KeptUpTo(es: seq<ElementView>, n: nat): (ks: seq<nat>)
    requires n <= |es|
    ensures |ks| <= n
    ensures forall j :: 0 <= j < |ks| ==> ks[j] < n && Kept(es[ks[j]])
  {
    if n == 0 then []
    else if Kept(es[n - 1]) then KeptUpTo(es, n - 1) + [n - 1]
    else KeptUpTo(es, n - 1)
  }

  /** The kept positions are increasing and miss no kept candidate. */
  lemma {:induction false} KeptUpToComplete(es: seq<ElementView>, n: nat)
    requires n <= |es|
    ensures forall j, k :: 0 <= j < k < |KeptUpTo(es, n)| ==> KeptUpTo(es, n)[j] < KeptUpTo(es, n)[k]
    ensures forall i :: 0 <= i < n && Kept(es[i]) ==> i in KeptUpTo(es, n)
  {
    if n > 0 {
      KeptUpToComplete(es, n - 1);
    }
  }

  /** The kept positions among the first `n` are a prefix of those among the first `n'`. */
  lemma {:induction false} KeptPrefix(es: seq<ElementView>, n: nat, n': nat)
    requires n <= n' <= |es|
    ensures |KeptUpTo(es, n)| <= |KeptUpTo(es, n')|
    ensures KeptUpTo(es, n) == KeptUpTo(es, n')[..|KeptUpTo(es, n)|]
    decreases n' - n
  {
    if n < n' {
      KeptPrefix(es, n, n' - 1);
      var a, b := KeptUpTo(es, n' - 1), KeptUpTo(es, n');
      assert b == a || b == a + [n' - 1];
      assert b[..|a|] == a;
    }
  }

  /** The tag name, lower-cased; the scan only asks for it on kept candidates, which have one. */
  function TagOf(e: ElementView): string {
    if e.tagName.Success? then Lower(e.tagName.value) else ""
  }

  /** `element.text()` with a failed read taken as empty text. */
  function TextOf(e: ElementView): string {
    if e.text.Success? then e.text.value else ""
  }

  /** The key a candidate asks for before collisions are resolved. */
  function WantedKey(e: ElementView, index: nat): string {
    ElementKey(TagOf(e), TextOf(e), index)
  }

  /** The priority chain, as the scan applies it to a candidate. */
  function ChainFor(count: MatchCount): LocatorRule {
    (e: ElementView, index: nat) => ChooseLocator(TagOf(e), index, e, count)
  }

  /** A rule giving the key a candidate asks for. */
  type KeyRule = (ElementView, nat) -> string

  /** A rule giving the locator chosen for a candidate, or the driver error that stopped it. */
  type LocatorRule = (ElementView, nat) -> Result<Choice, string>

  predicate Distinct(keys: seq<string>) {
    forall j, k :: 0 <= j < k < |keys| ==> keys[j] != keys[k]
  }

  /** `key` is `wanted` with the least suffix whose candidate is not among `before`. */
  predicate Assigned(wanted: string, suffix: nat, key: string, before: seq<string>) {
    && key == Candidate(wanted, suffix)
    && forall t :: 0 <= t < suffix ==> Candidate(wanted, t) in before
  }

  /** Every key is its wanted key with the least suffix not taken by an earlier entry. */
  predicate KeysAssigned(wanted: seq<string>, keys: seq<string>, suffixes: seq<nat>) {
    && |keys| == |wanted| && |suffixes| == |wanted|
    && forall j :: 0 <= j < |wanted| ==> Assigned(wanted[j], suffixes[j], keys[j], keys[..j])
  }

  /** The map holds exactly the keys, each with the locator of its successful resolution. */
  ghost predicate MapBuilt(keys: seq<string>, chosen: seq<Result<Choice, string>>, m: map<string, Locator>) {
    && |chosen| == |keys|
    && Distinct(keys)
    && |m| == |keys|
    && (forall k :: k in m <==> k in keys)
    && (forall j :: 0 <= j < |keys| ==> WellFormedKey(keys[j]))
    && forall j :: 0 <= j < |keys| ==>
         keys[j] in m && chosen[j].Success? && m[keys[j]] == chosen[j].value.locator
  }

  /** The wanted keys of the candidates at positions `ks`. */
  function WantedKeys(es: seq<ElementView>, ks: seq<nat>, keyOf: KeyRule): (ws: seq<string>)
    requires forall j :: 0 <= j < |ks| ==> ks[j] < |es|
    ensures |ws| == |ks|
  {
    seq(|ks|, j requires 0 <= j < |ks| => keyOf(es[ks[j]], ks[j]))
  }

  /** The chain's answers for the candidates at positions `ks`. */
  function Resolutions(es: seq<ElementView>, ks: seq<nat>, chain: LocatorRule): (rs: seq<Result<Choice, string>>)
    requires forall j :: 0 <= j < |ks| ==> ks[j] < |es|
    ensures |rs| == |ks|
  {
    seq(|ks|, j requires 0 <= j < |ks| => chain(es[ks[j]], ks[j]))
  }

  /**
   * The map after the first `i` candidates, entry by entry: one entry per kept candidate (in
   * order), under its wanted key with the least free suffix, keys distinct and well formed, each
   * holding the locator the chain chose for that candidate.
   */
  ghost predicate ScanState(es: seq<ElementView>, keyOf: KeyRule, chain: LocatorRule, i: nat,
                            keys: seq<string>, suffixes: seq<nat>, m: map<string, Locator>)
    requires i <= |es|
  {
    var ks := KeptUpTo(es, i);
    && KeysAssigned(WantedKeys(es, ks, keyOf), keys, suffixes)
    && MapBuilt(keys, Resolutions(es, ks, chain), m)
  }

  /** The finished map: the state after the last candidate. */
  ghost predicate ScanResult(es: seq<ElementView>, keyOf: KeyRule, chain: LocatorRule,
                             keys: seq<string>, suffixes: seq<nat>, m: map<string, Locator>) {
    ScanState(es, keyOf, chain, |es|, keys, suffixes, m)
  }

  /** Every kept candidate's chain answers without a driver error. */
  ghost predicate AllResolve(es: seq<ElementView>, chain: LocatorRule) {
    var ks := KeptUpTo(es, |es|);
    forall j :: 0 <= j < |ks| ==> chain(es[ks[j]], ks[j]).Success?
  }

  /** Some kept candidate's chain fails with `err`, and every kept candidate before it resolves. */
  ghost predicate FirstFailureIs(es: seq<ElementView>, chain: LocatorRule, err: string) {
    var ks := KeptUpTo(es, |es|);
    exists j :: 0 <= j < |ks| && chain(es[ks[j]], ks[j]) == Failure(err)
                && forall q :: 0 <= q < j ==> chain(es[ks[q]], ks[q]).Success?
  }

  /**
   * `get_all_clickable_element_locators`: the candidates come from one `find_all` query; each
   * kept candidate gets its sanitised key, made unique by a suffix, and the locator of the
   * priority chain. A driver error in the query or in any chain aborts the whole scan.
   */
  method Scan(found: Result<seq<ElementView>, string>, count: MatchCount)
    returns (r: Result<map<string, Locator>, string>, keys: seq<string>, suffixes: seq<nat>)
    ensures found.Failure? ==> r == Failure(found.error)
    ensures found.Success? ==>
      && (r.Success? <==> AllResolve(found.value, ChainFor(count)))
      && (r.Failure? ==> FirstFailureIs(found.value, ChainFor(count), r.error))
      && (r.Success? ==> ScanResult(found.value, WantedKey, ChainFor(count), keys, suffixes, r.value))
  {
    r, keys, suffixes := ScanWith(found, WantedKey, ChainFor(count));
  }

  /** The scan for any key rule that yields well-formed keys and any locator rule. */
  method ScanWith(found: Result<seq<ElementView>, string>, keyOf: KeyRule, chain: LocatorRule)
    returns (r: Result<map<string, Locator>, string>, keys: seq<string>, suffixes: seq<nat>)
    requires forall e, i :: WellFormedKey(keyOf(e, i))
    ensures found.Failure? ==> r == Failure(found.error)
    ensures found.Success? ==>
      && (r.Success? <==> AllResolve(found.value, chain))
      && (r.Failure? ==> FirstFailureIs(found.value, chain, r.error))
      && (r.Success? ==> ScanResult(found.value, keyOf, chain, keys, suffixes, r.value))
  {
    if found.Failure? {
      return Failure(found.error), [], [];
    }
    var failed: Option<string>;
    var m: map<string, Locator>;
    failed, keys, suffixes, m := ScanAll(found.value, keyOf, chain);
    if failed.Some? {
      return Failure(failed.value), keys, suffixes;
    }
    ScanDone(found.value, keyOf, chain, keys, suffixes, m);
    r := Success(m);
  }

  /** Before the first candidate the map is empty. */
  lemma ScanStart(es: seq<ElementView>, keyOf: KeyRule, chain: LocatorRule)
    ensures ScanState(es, keyOf, chain, 0, [], [], map[])
  {
    assert KeptUpTo(es, 0) == [];
  }

  /** The loop over the candidates, stopping at the first chain failure. */
  method ScanAll(es: seq<ElementView>, keyOf: KeyRule, chain: LocatorRule)
    returns (failed: Option<string>, keys: seq<string>, suffixes: seq<nat>, m: map<string, Locator>)
    requires forall e, i :: WellFormedKey(keyOf(e, i))
    ensures failed.None? ==> ScanState(es, keyOf, chain, |es|, keys, suffixes, m)
    ensures failed.Some? ==> FirstFailureIs(es, chain, failed.value) && !AllResolve(es, chain)
  {
    keys, suffixes, m := [], [], map[];
    failed := None;
    ScanStart(es, keyOf, chain);
    var i := 0;
    while i < |es|
      invariant 0 <= i <= |es| && failed.None?
      invariant ScanState(es, keyOf, chain, i, keys, suffixes, m)
    {
      failed, keys, suffixes, m := ScanAt(es, keyOf, chain, i, keys, suffixes, m);
      if failed.Some? {
        return;
      }
      i := i + 1;
    }
  }

  /**
   * One iteration: a skipped candidate changes nothing; a kept one is inserted under its least
   * free key, unless its chain fails, which is then the scan's first failure.
   */
  method ScanAt(es: seq<ElementView>, keyOf: KeyRule, chain: LocatorRule, i: nat,
                keys: seq<string>, suffixes: seq<nat>, m: map<string, Locator>)
    returns (failed: Option<string>, keys': seq<string>, suffixes': seq<nat>, m': map<string, Locator>)
    requires forall e, i :: WellFormedKey(keyOf(e, i))
    requires i < |es| && ScanState(es, keyOf, chain, i, keys, suffixes, m)
    ensures failed.None? ==> ScanState(es, keyOf, chain, i + 1, keys', suffixes', m')
    ensures failed.Some? ==> FirstFailureIs(es, chain, failed.value) && !AllResolve(es, chain)
    ensures !Kept(es[i]) ==> failed.None? && keys' == keys && m' == m
    ensures Kept(es[i]) && failed.None? ==> keys' == keys + [Candidate(keyOf(es[i], i), suffixes'[|keys|])]
  {
    var e := es[i];
    if !Kept(e) {
      assert KeptUpTo(es, i + 1) == KeptUpTo(es, i);
      return None, keys, suffixes, m;
    }
    var key, suffix := UniqueKey(m.Keys, keyOf(e, i));
    var choice := chain(e, i);
    if choice.Failure? {
      FirstFailure(es, keyOf, chain, i, keys, suffixes, m);
      return Some(choice.error), keys, suffixes, m;
    }
    ScanStep(es, keyOf, chain, i, keys, suffixes, m, key, suffix);
    failed, keys', suffixes', m' := None, keys + [key], suffixes + [suffix], m[key := choice.value.locator];
  }

  /**
   * The finished scan read entry by entry: the `j`-th kept candidate, at position `k`, is stored
   * under its element key with the `j`-th suffix, holding the locator of the priority chain.
   */
  lemma ScanEntry(es: seq<ElementView>, count: MatchCount,
                  keys: seq<string>, suffixes: seq<nat>, m: map<string, Locator>, j: nat)
    requires ScanResult(es, WantedKey, ChainFor(count), keys, suffixes, m)
    requires j < |KeptUpTo(es, |es|)|
    ensures var k := KeptUpTo(es, |es|)[j];
      var e := es[k];
      && Kept(e)
      && keys[j] == Candidate(ElementKey(Lower(e.tagName.value), TextOf(e), k), suffixes[j])
      && keys[j] in m
      && ChooseLocator(Lower(e.tagName.value), k, e, count).Success?
      && m[keys[j]] == ChooseLocator(Lower(e.tagName.value), k, e, count).value.locator
  {
    var ks := KeptUpTo(es, |es|);
    assert WantedKeys(es, ks, WantedKey)[j] == WantedKey(es[ks[j]], ks[j]);
    assert Resolutions(es, ks, ChainFor(count))[j] == ChainFor(count)(es[ks[j]], ks[j]);
  }

  lemma ScanDone(es: seq<ElementView>, keyOf: KeyRule, chain: LocatorRule,
                 keys: seq<string>, suffixes: seq<nat>, m: map<string, Locator>)
    requires ScanState(es, keyOf, chain, |es|, keys, suffixes, m)
    ensures AllResolve(es, chain)
  {
    var ks := KeptUpTo(es, |es|);
    forall j | 0 <= j < |ks| ensures chain(es[ks[j]], ks[j]).Success? {
      assert Resolutions(es, ks, chain)[j] == chain(es[ks[j]], ks[j]);
    }
  }

  /** A chain failing at candidate `i` is the first failure among all kept candidates. */
  lemma FirstFailure(es: seq<ElementView>, keyOf: KeyRule, chain: LocatorRule, i: nat,
                     keys: seq<string>, suffixes: seq<nat>, m: map<string, Locator>)
    requires i < |es| && Kept(es[i]) && ScanState(es, keyOf, chain, i, keys, suffixes, m)
    requires chain(es[i], i).Failure?
    ensures FirstFailureIs(es, chain, chain(es[i], i).error)
    ensures !AllResolve(es, chain)
  {
    var before := KeptUpTo(es, i);
    var ks := KeptUpTo(es, |es|);
    KeptNext(es, i);
    StateResolved(es, keyOf, chain, i, keys, suffixes, m);
    forall q | 0 <= q < |before| ensures chain(es[ks[q]], ks[q]).Success? {
      assert ks[q] == ks[..|before|][q];
    }
    assert chain(es[ks[|before|]], ks[|before|]) == Failure(chain(es[i], i).error);
  }

  /** A kept candidate at `i` follows the ones kept before it among all kept positions. */
  lemma KeptNext(es: seq<ElementView>, i: nat)
    requires i < |es| && Kept(es[i])
    ensures var before, ks := KeptUpTo(es, i), KeptUpTo(es, |es|);
      |before| < |ks| && ks[|before|] == i && ks[..|before|] == before
  {
    var before, ks := KeptUpTo(es, i), KeptUpTo(es, |es|);
    assert KeptUpTo(es, i + 1) == before + [i];
    KeptPrefix(es, i, |es|);
    KeptPrefix(es, i + 1, |es|);
    assert ks[|before|] == ks[..|before| + 1][|before|] == (before + [i])[|before|];
  }

  /** In a scan state every kept candidate so far has resolved. */
  lemma StateResolved(es: seq<ElementView>, keyOf: KeyRule, chain: LocatorRule, i: nat,
                      keys: seq<string>, suffixes: seq<nat>, m: map<string, Locator>)
    requires i <= |es| && ScanState(es, keyOf, chain, i, keys, suffixes, m)
    ensures var before := KeptUpTo(es, i);
      forall q :: 0 <= q < |before| ==> chain(es[before[q]], before[q]).Success?
  {
    var before := KeptUpTo(es, i);
    forall q | 0 <= q < |before| ensures chain(es[before[q]], before[q]).Success? {
      assert Resolutions(es, before, chain)[q] == chain(es[before[q]], before[q]);
    }
  }

  /** Adding the candidate at `i` under its least free key keeps the scan state. */
  lemma ScanStep(es: seq<ElementView>, keyOf: KeyRule, chain: LocatorRule, i: nat,
                 keys: seq<string>, suffixes: seq<nat>, m: map<string, Locator>,
                 key: string, suffix: nat)
    requires forall e, i :: WellFormedKey(keyOf(e, i))
    requires i < |es| && Kept(es[i]) && ScanState(es, keyOf, chain, i, keys, suffixes, m)
    requires chain(es[i], i).Success?
    requires key == Candidate(keyOf(es[i], i), suffix) && key !in m
    requires forall t :: 0 <= t < suffix ==> Candidate(keyOf(es[i], i), t) in m
    ensures ScanState(es, keyOf, chain, i + 1, keys + [key], suffixes + [suffix],
                      m[key := chain(es[i], i).value.locator])
  {
    var ks := KeptUpTo(es, i);
    var ks' := ks + [i];
    assert KeptUpTo(es, i + 1) == ks';
    var wanted := WantedKeys(es, ks, keyOf);
    assert WantedKeys(es, ks', keyOf) == wanted + [keyOf(es[i], i)];
    assert Resolutions(es, ks', chain) == Resolutions(es, ks, chain) + [chain(es[i], i)];
    KeysExtend(wanted, keys, suffixes, keyOf(es[i], i), key, suffix, m.Keys);
    CandidateWellFormed(keyOf(es[i], i), suffix);
    MapExtend(keys, Resolutions(es, ks, chain), m, key, chain(es[i], i));
  }

  lemma KeysExtend(wanted: seq<string>, keys: seq<string>, suffixes: seq<nat>,
                   w: string, key: string, suffix: nat, taken: set<string>)
    requires KeysAssigned(wanted, keys, suffixes)
    requires forall k :: k in taken ==> k in keys
    requires key == Candidate(w, suffix)
    requires forall t :: 0 <= t < suffix ==> Candidate(w, t) in taken
    ensures KeysAssigned(wanted + [w], keys + [key], suffixes + [suffix])
  {
    var wanted', keys', suffixes' := wanted + [w], keys + [key], suffixes + [suffix];
    assert keys'[..|keys|] == keys;
    forall j | 0 <= j < |wanted'|
      ensures Assigned(wanted'[j], suffixes'[j], keys'[j], keys'[..j])
    {
      if j < |wanted| {
        assert keys'[..j] == keys[..j];
      }
    }
  }

  lemma MapExtend(keys: seq<string>, chosen: seq<Result<Choice, string>>, m: map<string, Locator>,
                  key: string, c: Result<Choice, string>)
    requires MapBuilt(keys, chosen, m)
    requires key !in m && WellFormedKey(key) && c.Success?
    ensures MapBuilt(keys + [key], chosen + [c], m[key := c.value.locator])
  {
    var keys', chosen', m' := keys + [key], chosen + [c], m[key := c.value.locator];
    assert key !in keys;
    assert Distinct(keys') by {
      forall j, k | 0 <= j < k < |keys'| ensures keys'[j] != keys'[k] {
        if k == |keys| {
          assert keys'[j] == keys[j];
        } else {
          assert keys'[j] == keys[j] && keys'[k] == keys[k];
        }
      }
    }
    assert forall k :: k in m' <==> k in keys' by {
      forall k ensures k in m' <==> k in keys' {
        assert k in keys' <==> k in keys || k == key;
      }
    }
    assert |m'| == |keys'|;
    assert forall j :: 0 <= j < |keys'| ==> WellFormedKey(keys'[j]) by {
      forall j | 0 <= j < |keys'| ensures WellFormedKey(keys'[j]) {
        if j < |keys| {
          assert keys'[j] == keys[j];
        }
      }
    }
    forall j | 0 <= j < |keys'|
      ensures keys'[j] in m' && chosen'[j].Success? && m'[keys'[j]] == chosen'[j].value.locator
    {
      if j < |keys| {
        assert keys'[j] == keys[j] != key;
        assert chosen'[j] == chosen[j];
      }
    }
  }
}
