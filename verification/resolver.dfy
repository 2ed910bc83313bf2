/** `getAll` (SearchService.java:160-259): the staged resolution of a free-text
    query into a brand, an item type, a catalogue and finally a list of found
    items, over an abstract search index. Each stage is a function from the
    resolver state to the next state; the state records every index request
    made so far, so that which requests a query can cause is stated and proved. */
module Resolver {
  import opened Wrappers
  import opened JavaText
  import opened Layout
  import opened Model
  import opened Grouper

  datatype Stage = BrandStage | TypeStage | CatalogueStage | CombinedStage | FallbackStage

  /** One index request: the stage that made it, the query, and whether it is
      the retry with the layout-converted text after an empty answer. */
  datatype Call = Call(stage: Stage, query: Query, retry: bool)

  /** The local variables of `getAll`, plus the requests made so far. */
  datatype St = St(
    text: string,
    original: string,
    brand: string,
    itemType: string,
    catalogueId: Option<int>,
    needConvert: bool,
    list: seq<IndexedItem>,
    calls: seq<Call>)

  /** Only the combined stage retries without asking `needConvert`. */
  predicate Gated(stage: Stage) {
    stage != CombinedStage
  }

  /** `r` continues `st` with requests of one stage only, keeps `needConvert`,
      and every retry of a gated stage was allowed by `needConvert`. */
  predicate Extends(st: St, r: St, stage: Stage) {
    && |st.calls| <= |r.calls|
    && r.calls[..|st.calls|] == st.calls
    && r.needConvert == st.needConvert
    && r.original == st.original
    && (forall i :: |st.calls| <= i < |r.calls| ==> r.calls[i].stage == stage)
    && (forall i :: |st.calls| <= i < |r.calls| && r.calls[i].retry && Gated(stage) ==> st.needConvert)
  }

  /** The item list is the answer to the latest request (empty before any). */
  predicate Consistent(env: Env, page: nat, st: St) {
    if st.calls == [] then st.list == []
    else st.list == env.index(st.calls[|st.calls| - 1].query, page)
  }

  lemma ExtendsTrans(a: St, b: St, c: St, stage: Stage)
    requires Extends(a, b, stage) && Extends(b, c, stage)
    ensures Extends(a, c, stage)
  {
    assert c.calls[..|a.calls|] == c.calls[..|b.calls|][..|a.calls|];
    forall i | |a.calls| <= i < |c.calls| ensures c.calls[i].stage == stage {
      if i < |b.calls| { assert c.calls[i] == b.calls[i]; }
    }
    forall i | |a.calls| <= i < |c.calls| && c.calls[i].retry && Gated(stage) ensures a.needConvert {
      if i < |b.calls| { assert c.calls[i] == b.calls[i]; }
    }
  }

  /** One index request: the answer replaces the item list. */
  function Ask(env: Env, page: nat, st: St, stage: Stage, q: Query, retry: bool): (r: St)
    requires retry && Gated(stage) ==> st.needConvert
    ensures Extends(st, r, stage) && Consistent(env, page, r)
    ensures r.calls == st.calls + [Call(stage, q, retry)]
    ensures r == st.(list := r.list, calls := r.calls)
  {
    st.(list := env.index(q, page), calls := st.calls + [Call(stage, q, retry)])
  }

  /** The request, and after an empty answer the retry with the converted
      text when `allowed`. */
  function AskWithRetry(env: Env, page: nat, st: St, stage: Stage, q: Query, converted: Query, allowed: bool): (r: St)
    requires allowed && Gated(stage) ==> st.needConvert
    ensures Extends(st, r, stage) && Consistent(env, page, r)
    ensures r == st.(list := r.list, calls := r.calls)
    ensures |r.calls| == |st.calls| + 1 || |r.calls| == |st.calls| + 2
    ensures r.calls[|st.calls|] == Call(stage, q, false)
    ensures |r.calls| == |st.calls| + 2 <==> env.index(q, page) == [] && allowed
    ensures |r.calls| == |st.calls| + 2 ==> r.calls[|st.calls| + 1] == Call(stage, converted, true)
  {
    var s1 := Ask(env, page, st, stage, q, false);
    if s1.list == [] && allowed then
      var s2 := Ask(env, page, s1, stage, converted, true);
      ExtendsTrans(st, s1, s2, stage);
      s2
    else s1
  }

  /** Lines 166-175: text with layout-error punctuation is converted once, and
      the conversion retries are switched off when the text or its conversion
      holds such punctuation. */
  function Prepare(text: string): (st: St)
    ensures st.calls == [] && st.list == [] && st.original == text
    ensures st.brand == "" && st.itemType == "" && st.catalogueId == None
    ensures HasErrorChar(text) ==> st.text == Convert(text) && !st.needConvert
    ensures !HasErrorChar(text) ==> st.text == text
    ensures st.needConvert <==> !HasErrorChar(text) && !HasErrorChar(Convert(text))
  {
    var converted := HasErrorChar(text);
    var t := if converted then Convert(text) else text;
    var needConvert := !converted && !HasErrorChar(Convert(t));
    St(t, text, "", "", None, needConvert, [], [])
  }

  /** Text that `convert` reads as Latin and that holds layout-error
      punctuation is left without any after preparation. */
  lemma PrepareClearsErrorChars(text: string)
    requires HasErrorChar(text) && !MatchesCyrillicPattern(text)
    ensures !HasErrorChar(Prepare(text).text)
    ensures !Prepare(text).needConvert
  {
    LatinConversionClearsErrorChars(text);
  }

  /** The brand loop over the words of the text as it stood when the loop
      began: the first word (or, with `needConvert`, the whole converted text)
      for which the index knows a brand ends the loop; the word is removed
      from the text and the brand is taken from the first item found. */
  function BrandLoop(env: Env, page: nat, st: St, words: seq<string>): (r: St)
    ensures Extends(st, r, BrandStage)
    ensures r.itemType == st.itemType && r.catalogueId == st.catalogueId
    ensures r.brand == st.brand || r.list != []
    ensures r.brand != st.brand ==> r.brand == r.list[0].brand
    ensures words != [] ==> |r.calls| > |st.calls|
    decreases |words|
  {
    if words == [] then st
    else
      var w := words[0];
      var s := AskWithRetry(env, page, st, BrandStage, ByBrand(w), ByBrand(Convert(st.text)), st.needConvert);
      if s.list != [] then
        s.(text := ReplaceAll(Trim(RemoveAll(st.text, w)), "  ", " "), brand := s.list[0].brand)
      else
        var r := BrandLoop(env, page, s, words[1..]);
        ExtendsTrans(st, s, r, BrandStage);
        r
  }

  /** Lines 177-188: the brand loop runs only for text with a space. */
  function BrandStep(env: Env, page: nat, st: St): (r: St)
    ensures Extends(st, r, BrandStage)
    ensures r.itemType == st.itemType && r.catalogueId == st.catalogueId
    ensures ' ' !in st.text ==> r == st
    ensures ' ' in st.text && Split(st.text) != [] ==> |r.calls| > |st.calls|
  {
    if ' ' in st.text then BrandLoop(env, page, st, Split(st.text)) else st
  }

  /** The index of the first item whose type is shortest: what
      `min(comparingInt(String::length))` keeps on ties, since its reduction
      keeps the earlier element unless the later one is strictly shorter. */
  function FirstShortest(list: seq<IndexedItem>): (i: nat)
    requires list != []
    ensures i < |list|
    ensures forall j :: 0 <= j < |list| ==> |list[i].itemType| <= |list[j].itemType|
    ensures forall j :: 0 <= j < i ==> |list[j].itemType| > |list[i].itemType|
  {
    if |list| == 1 then 0
    else
      var j := FirstShortest(list[..|list| - 1]);
      if |list[j].itemType| <= |list[|list| - 1].itemType| then j else |list| - 1
  }

  function ShortestType(list: seq<IndexedItem>): string
    requires list != []
  {
    list[FirstShortest(list)].itemType
  }

  /** The per-word type loop: it has no `break`, so every word is asked, and
      every hit removes its word from the text and sets the type anew. */
  function TypeLoop(env: Env, page: nat, st: St, words: seq<string>): (r: St)
    ensures Extends(st, r, TypeStage)
    ensures r.brand == st.brand && r.catalogueId == st.catalogueId
    ensures words != [] ==> |r.calls| > |st.calls|
    ensures words != [] ==> r.calls[|st.calls|] == Call(TypeStage, ByType(words[0]), false)
    ensures r.itemType == st.itemType
      || exists q :: env.index(q, page) != [] && r.itemType == ShortestType(env.index(q, page))
    decreases |words|
  {
    if words == [] then st
    else
      var w := words[0];
      var s := AskWithRetry(env, page, st, TypeStage, ByType(w), ByType(Convert(st.text)), st.needConvert);
      assert s.list != [] ==> s.list == env.index(s.calls[|s.calls| - 1].query, page);
      var s' := if s.list != [] then s.(text := RemoveAll(st.text, w), itemType := ShortestType(s.list)) else s;
      var r := TypeLoop(env, page, s', words[1..]);
      ExtendsTrans(st, s', r, TypeStage);
      r
  }

  /** Lines 189-206: the whole text as a type, else word by word. */
  function TypeStep(env: Env, page: nat, st: St): (r: St)
    ensures Extends(st, r, TypeStage)
    ensures r.brand == st.brand && r.catalogueId == st.catalogueId
    ensures |r.calls| > |st.calls|
    ensures r.calls[|st.calls|] == Call(TypeStage, ByType(st.text), false)
    ensures r.itemType == st.itemType
      || exists q :: env.index(q, page) != [] && r.itemType == ShortestType(env.index(q, page))
  {
    var s := AskWithRetry(env, page, st, TypeStage, ByType(st.text), ByType(Convert(st.text)), st.needConvert);
    assert s.list != [] ==> s.list == env.index(s.calls[|s.calls| - 1].query, page);
    if s.list != [] then s.(itemType := ShortestType(s.list))
    else
      var r := TypeLoop(env, page, s, Split(s.text));
      ExtendsTrans(st, s, r, TypeStage);
      r
  }

  /** Lines 207-215: a catalogue is looked up only when no brand was found. */
  function CatalogueStep(env: Env, page: nat, st: St): (r: St)
    ensures Extends(st, r, CatalogueStage)
    ensures r.brand == st.brand && r.text == st.text && r.itemType == st.itemType
    ensures st.brand != "" ==> r == st
    ensures st.brand == "" ==> |r.calls| > |st.calls|
    ensures r.catalogueId != st.catalogueId ==> r.list != [] && r.catalogueId == Some(r.list[0].catalogueId)
  {
    if st.brand != "" then st
    else
      var s := AskWithRetry(env, page, st, CatalogueStage, ByCatalogue(st.text), ByCatalogue(Convert(st.text)), st.needConvert);
      if s.list != [] then s.(catalogueId := Some(s.list[0].catalogueId)) else s
  }

  /** The combined query of lines 220-246 for a marked text: type alone, the
      catalogue, the brand alone, or brand and type, by what was resolved. The
      type carries the `?` marker except in the brand-only shape. */
  function CombinedQuery(text: string, st: St): (q: Query)
    ensures st.brand == "" && st.catalogueId.None? ==> q == ByTypedName(text, st.itemType + "?")
    ensures st.brand == "" && st.catalogueId.Some? ==> q == ByCatalogueName(text, st.catalogueId.value)
    ensures st.brand != "" && st.itemType == "" ==> q == ByBrandName(text, st.brand)
    ensures st.brand != "" && st.itemType != "" ==> q == ByTypedBrandName(text, st.brand, st.itemType + "?")
  {
    if st.brand == "" then
      match st.catalogueId
      case None => ByTypedName(text, st.itemType + "?")
      case Some(id) => ByCatalogueName(text, id)
    else if st.itemType == "" then ByBrandName(text, st.brand)
    else ByTypedBrandName(text, st.brand, st.itemType + "?")
  }

  /** Lines 219-247: the combined query of the text, marked with `?`, and
      what was resolved; its retry on the converted text is not gated. */
  function Combined(env: Env, page: nat, st: St): (r: St)
    ensures Extends(st, r, CombinedStage)
    ensures Consistent(env, page, r)
    ensures r.brand == st.brand && r.text == st.text + "?"
    ensures r.itemType == if st.brand != "" && st.itemType == "" then st.itemType else st.itemType + "?"
    ensures 1 <= |r.calls| - |st.calls| <= 2
    ensures r.calls[|st.calls|] == Call(CombinedStage, CombinedQuery(st.text + "?", st), false)
    ensures |r.calls| == |st.calls| + 2 <==> env.index(CombinedQuery(st.text + "?", st), page) == []
    ensures |r.calls| == |st.calls| + 2 ==>
      r.calls[|st.calls| + 1] == Call(CombinedStage, CombinedQuery(Convert(st.text + "?"), st), true)
  {
    var text := st.text + "?";
    var t := if st.brand != "" && st.itemType == "" then st.itemType else st.itemType + "?";
    AskWithRetry(env, page, st.(text := text, itemType := t), CombinedStage,
                 CombinedQuery(text, st), CombinedQuery(Convert(text), st), true)
  }

  /** Lines 249-257: the loose search on the original text, and, with
      `needConvert`, a retry that asks for type and brand on the converted
      original text. It runs only when the combined query found nothing. */
  function Fallback(env: Env, page: nat, st: St): (r: St)
    ensures Extends(st, r, FallbackStage)
    ensures Consistent(env, page, st) ==> Consistent(env, page, r)
    ensures r.brand == st.brand
    ensures st.list != [] ==> r == st
    ensures st.list == [] ==> |r.calls| > |st.calls|
    ensures st.list == [] ==> r.calls[|st.calls|] == Call(FallbackStage, Loose(st.original + "?"), false)
    ensures st.list == [] && |r.calls| == |st.calls| + 2 ==>
      r.calls[|st.calls| + 1] == Call(FallbackStage, ByTypedBrandName(Convert(st.original + "?"), st.brand, st.itemType), true)
    ensures st.list == [] ==> r.text == if ' ' in st.original then Join(" ", Split(st.text)) else st.text
  {
    if st.list != [] then st
    else
      var text := if ' ' in st.original then Join(" ", Split(st.text)) else st.text;
      var loose := st.original + "?";
      AskWithRetry(env, page, st.(text := text), FallbackStage, Loose(loose),
                   ByTypedBrandName(Convert(loose), st.brand, st.itemType), st.needConvert)
  }

  /** Where `getAll` ends: at the brand-only early exit of line 218, or with
      the list it hands to `get` at line 258. */
  datatype Outcome = BrandOnly(st: St) | Listed(st: St)

  /** The state after the brand, type and catalogue stages and the trim of
      line 216, where the early exit is decided. */
  function Early(env: Env, page: nat, text: string): St {
    Narrow(env, page, Prepare(text))
  }

  function Narrow(env: Env, page: nat, s0: St): St {
    TrimText(CatalogueStep(env, page, TypeStep(env, page, BrandStep(env, page, s0))))
  }

  /** Line 216. */
  function TrimText(st: St): (r: St)
    ensures r.calls == st.calls && r.list == st.list && r.brand == st.brand
    ensures r.needConvert == st.needConvert && r.original == st.original
  {
    st.(text := Trim(st.text))
  }

  function Resolve(env: Env, page: nat, text: string): Outcome {
    var s4 := Early(env, page, text);
    if s4.text == "" && s4.brand != "" then BrandOnly(s4)
    else Listed(Fallback(env, page, Combined(env, page, s4)))
  }

  /** `getAll(text, pageable)`. The early exit reads the first item of the
      current list, which the index may have left empty: that is its only
      failure. Otherwise the early exit yields one group without an item list,
      and past it the groups are `get`'s, none without items, and there are
      none only when the final request found nothing. */
  function GetAll(env: Env, page: nat, text: string): (r: Result<seq<CatalogueGroup>, Failure>)
    requires ValidOrder(env.hashOrder)
    ensures var o := Resolve(env, page, text);
      (r.Err? <==> o.BrandOnly? && o.st.list == []) && (r.Err? ==> r.error == IndexOutOfBounds)
    ensures var o := Resolve(env, page, text);
      r.Ok? && o.BrandOnly? ==>
        |r.value| == 1 && r.value[0].items == None
        && r.value[0].brand == Some(o.st.brand) && r.value[0].catalogue == o.st.list[0].catalogue
    ensures var o := Resolve(env, page, text);
      o.Listed? ==>
        r.Ok? && (|r.value| == 0 <==> o.st.list == [])
        && forall g :: g in r.value ==> g.items.Some? && g.items.value != [] && g.brand == BrandOrNull(o.st.brand)
  {
    match Resolve(env, page, text)
    case BrandOnly(st) =>
      if st.list == [] then Err(IndexOutOfBounds)
      else Ok([CatalogueGroup(st.list[0].catalogue, st.list[0].catalogueId, None, Some(st.brand))])
    case Listed(st) =>
      Ok(Get(st.list, st.text, st.brand, env.hashOrder))
  }

  /** Some request of the given stage was made. */
  ghost predicate HasCall(st: St, stage: Stage) {
    exists i :: 0 <= i < |st.calls| && st.calls[i].stage == stage
  }

  /** Every gated retry so far was allowed by `needConvert`. */
  ghost predicate RetriesAllowed(st: St) {
    forall i :: 0 <= i < |st.calls| && st.calls[i].retry && Gated(st.calls[i].stage) ==> st.needConvert
  }

  lemma ExtendsCalls(a: St, b: St, stage: Stage)
    requires Extends(a, b, stage)
    ensures forall other :: other != stage ==> (HasCall(b, other) <==> HasCall(a, other))
    ensures HasCall(b, stage) <==> HasCall(a, stage) || |b.calls| > |a.calls|
    ensures RetriesAllowed(a) ==> RetriesAllowed(b)
  {
    forall other ensures HasCall(b, other) ==> HasCall(a, other) || other == stage {
      if HasCall(b, other) {
        var i :| 0 <= i < |b.calls| && b.calls[i].stage == other;
        if i < |a.calls| { assert a.calls[i] == b.calls[i]; }
      }
    }
    forall other ensures HasCall(a, other) ==> HasCall(b, other) {
      if HasCall(a, other) {
        var i :| 0 <= i < |a.calls| && a.calls[i].stage == other;
        assert b.calls[i] == a.calls[i];
      }
    }
    if |b.calls| > |a.calls| {
      assert b.calls[|a.calls|].stage == stage;
    }
    if RetriesAllowed(a) {
      forall i | 0 <= i < |b.calls| && b.calls[i].retry && Gated(b.calls[i].stage) ensures b.needConvert {
        if i < |a.calls| { assert a.calls[i] == b.calls[i]; }
      }
    }
  }

  /** How the requests of the first three stages add up, for any states
      related as the stages relate them. */
  lemma ChainCalls(s0: St, s1: St, s2: St, s3: St)
    requires s0.calls == []
    requires Extends(s0, s1, BrandStage) && Extends(s1, s2, TypeStage) && Extends(s2, s3, CatalogueStage)
    requires |s2.calls| > |s1.calls|
    requires |s3.calls| > |s2.calls| <==> s3.brand == ""
    ensures RetriesAllowed(s3)
    ensures HasCall(s3, BrandStage) <==> |s1.calls| > 0
    ensures HasCall(s3, TypeStage)
    ensures HasCall(s3, CatalogueStage) <==> s3.brand == ""
    ensures !HasCall(s3, CombinedStage) && !HasCall(s3, FallbackStage)
  {
    forall stage ensures !HasCall(s0, stage) { }
    assert RetriesAllowed(s0);
    ExtendsCalls(s0, s1, BrandStage);
    ExtendsCalls(s1, s2, TypeStage);
    ExtendsCalls(s2, s3, CatalogueStage);
  }

  /** A brand is only ever taken from the first item of an index answer. */
  lemma {:induction false} BrandLoopFromIndex(env: Env, page: nat, st: St, words: seq<string>)
    ensures var r := BrandLoop(env, page, st, words);
      r.brand == st.brand || exists q :: env.index(q, page) != [] && r.brand == env.index(q, page)[0].brand
    decreases |words|
  {
    if words != [] {
      var s := AskWithRetry(env, page, st, BrandStage, ByBrand(words[0]), ByBrand(Convert(st.text)), st.needConvert);
      if s.list == [] {
        BrandLoopFromIndex(env, page, s, words[1..]);
      } else {
        assert s.list == env.index(s.calls[|s.calls| - 1].query, page);
      }
    }
  }

  /** The brand the narrow stages end with is the one they started with or
      the brand of the first item of some index answer. */
  lemma BrandFromIndex(env: Env, page: nat, s0: St)
    ensures var b := Narrow(env, page, s0).brand;
      b == s0.brand || exists q :: env.index(q, page) != [] && b == env.index(q, page)[0].brand
  {
    if ' ' in s0.text {
      BrandLoopFromIndex(env, page, s0, Split(s0.text));
    }
  }

  /** The type the narrow stages end with is the one they started with or
      the shortest type of some index answer. */
  lemma TypeFromIndex(env: Env, page: nat, s0: St)
    ensures var t := Narrow(env, page, s0).itemType;
      t == s0.itemType || exists q :: env.index(q, page) != [] && t == ShortestType(env.index(q, page))
  {
    var s1 := BrandStep(env, page, s0);
    assert TypeStep(env, page, s1).itemType == Narrow(env, page, s0).itemType;
  }

  /** The requests the brand, type and catalogue stages make, starting from
      a state that has made none. */
  lemma {:induction false} NarrowTrace(env: Env, page: nat, s0: St)
    requires s0.calls == []
    ensures var s4 := Narrow(env, page, s0);
      && RetriesAllowed(s4)
      && s4.needConvert == s0.needConvert
      && s4.original == s0.original
      && (HasCall(s4, BrandStage) ==> ' ' in s0.text)
      && HasCall(s4, TypeStage)
      && (HasCall(s4, CatalogueStage) <==> s4.brand == "")
      && !HasCall(s4, CombinedStage) && !HasCall(s4, FallbackStage)
  {
    ChainCalls(s0, BrandStep(env, page, s0), TypeStep(env, page, BrandStep(env, page, s0)),
               CatalogueStep(env, page, TypeStep(env, page, BrandStep(env, page, s0))));
  }

  /** The requests past the early exit: the combined query always, and the
      loose fallback exactly when the combined query found nothing. */
  lemma {:induction false} ListedTrace(env: Env, page: nat, s4: St)
    requires RetriesAllowed(s4) && !HasCall(s4, CombinedStage) && !HasCall(s4, FallbackStage)
    ensures var f := Fallback(env, page, Combined(env, page, s4));
      && Consistent(env, page, f)
      && RetriesAllowed(f)
      && f.needConvert == s4.needConvert && f.brand == s4.brand
      && (forall stage :: stage != CombinedStage && stage != FallbackStage ==> (HasCall(f, stage) <==> HasCall(s4, stage)))
      && HasCall(f, CombinedStage)
      && (HasCall(f, FallbackStage) <==> Combined(env, page, s4).list == [])
  {
    ExtendsCalls(s4, Combined(env, page, s4), CombinedStage);
    ExtendsCalls(Combined(env, page, s4), Fallback(env, page, Combined(env, page, s4)), FallbackStage);
  }

  /** What the resolver asked of the index, for any query: the item list it
      ends with is the answer to its latest request; every retry outside the
      combined stage happened only with `needConvert`, so never for text
      holding layout-error punctuation before or after conversion; brand
      requests only for text with a space; the whole-text type request
      always; the catalogue request exactly when no brand was found; and,
      past the early exit, the loose fallback exactly when the combined query
      found nothing. */
  lemma {:induction false} ResolveTrace(env: Env, page: nat, text: string)
    ensures var o := Resolve(env, page, text);
      && (o.Listed? ==> Consistent(env, page, o.st))
      && (forall i :: 0 <= i < |o.st.calls| && o.st.calls[i].retry && Gated(o.st.calls[i].stage) ==>
            !HasErrorChar(text) && !HasErrorChar(Convert(text)))
      && (HasCall(o.st, BrandStage) ==> ' ' in Prepare(text).text)
      && HasCall(o.st, TypeStage)
      && (HasCall(o.st, CatalogueStage) <==> o.st.brand == "")
      && (o.BrandOnly? <==> (o.st.text == "" && o.st.brand != "" && !HasCall(o.st, CombinedStage)))
      && (o.BrandOnly? ==> !HasCall(o.st, FallbackStage))
      && (o.Listed? ==> (HasCall(o.st, CombinedStage)
            && (HasCall(o.st, FallbackStage) <==> Combined(env, page, Early(env, page, text)).list == [])))
  {
    ResolveGating(env, page, text);
    ResolveOutcome(env, page, text);
  }

  /** The facts about the requests that hold whichever way `getAll` ends. */
  lemma {:induction false} ResolveGating(env: Env, page: nat, text: string)
    ensures var o := Resolve(env, page, text);
      && (forall i :: 0 <= i < |o.st.calls| && o.st.calls[i].retry && Gated(o.st.calls[i].stage) ==>
            !HasErrorChar(text) && !HasErrorChar(Convert(text)))
      && (HasCall(o.st, BrandStage) ==> ' ' in Prepare(text).text)
      && HasCall(o.st, TypeStage)
      && (HasCall(o.st, CatalogueStage) <==> o.st.brand == "")
  {
    NarrowTrace(env, page, Prepare(text));
    OutcomeKeepsCalls(env, page, Early(env, page, text));
  }

  /** Past the narrow stages, whichever way `getAll` ends, the requests of
      those stages, the brand and the retry flag are kept. */
  lemma {:induction false} OutcomeKeepsCalls(env: Env, page: nat, s4: St)
    requires RetriesAllowed(s4) && !HasCall(s4, CombinedStage) && !HasCall(s4, FallbackStage)
    ensures var o := if s4.text == "" && s4.brand != "" then BrandOnly(s4)
                     else Listed(Fallback(env, page, Combined(env, page, s4)));
      && RetriesAllowed(o.st) && o.st.needConvert == s4.needConvert && o.st.brand == s4.brand
      && (HasCall(o.st, BrandStage) <==> HasCall(s4, BrandStage))
      && (HasCall(o.st, TypeStage) <==> HasCall(s4, TypeStage))
      && (HasCall(o.st, CatalogueStage) <==> HasCall(s4, CatalogueStage))
  {
    if !(s4.text == "" && s4.brand != "") {
      ListedTrace(env, page, s4);
    }
  }

  /** Which way `getAll` ends, and what the combined and fallback stages did. */
  lemma {:induction false} ResolveOutcome(env: Env, page: nat, text: string)
    ensures var o := Resolve(env, page, text);
      && (o.Listed? ==> Consistent(env, page, o.st))
      && (o.BrandOnly? <==> (o.st.text == "" && o.st.brand != "" && !HasCall(o.st, CombinedStage)))
      && (o.BrandOnly? ==> !HasCall(o.st, FallbackStage))
      && (o.Listed? ==> (HasCall(o.st, CombinedStage)
            && (HasCall(o.st, FallbackStage) <==> Combined(env, page, Early(env, page, text)).list == [])))
  {
    NarrowTrace(env, page, Prepare(text));
    if !(Early(env, page, text).text == "" && Early(env, page, text).brand != "") {
      ListedTrace(env, page, Early(env, page, text));
    }
  }
}
