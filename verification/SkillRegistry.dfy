/** The layered skill registry: one global catalogue and one per scope, and the ways to look skills up. */
module SkillRegistry {
  import opened Prelude
  import Text
  import Sorting
  import SK = SessionKeys

  /** A skill; everything but its name is opaque here. */
  datatype Skill = Skill(name: string, body: string)

  type Catalog = map<string, Skill>

  /** Skills are filed under their own names. */
  ghost predicate WellFiled(c: Catalog) {
    forall n | n in c :: c[n].name == n
  }

  /** One scope's registry. */
  class Registry {
    var skills: Catalog

    constructor ()
      ensures skills == map[]
    {
      skills := map[];
    }

    method Register(skill: Skill)
      modifies this
      ensures skills == old(skills)[skill.name := skill]
      ensures old(WellFiled(skills)) ==> WellFiled(skills)
    {
      skills := skills[skill.name := skill];
    }

    method Get(name: string) returns (skill: Option<Skill>)
      ensures skill == if name in skills then Some(skills[name]) else None
    {
      skill := if name in skills then Some(skills[name]) else None;
    }
  }

  /** A found skill with the place it came from. */
  datatype Entry = Entry(skill: Skill, sourceLayer: string, sourceScope: Option<string>)

  function GlobalEntry(skill: Skill): Entry {
    Entry(skill, "global", None)
  }

  function ScopedEntry(skill: Skill, scope: string): Entry {
    Entry(skill, SK.ScopeLayer(scope), Some(scope))
  }

  /** The registry's contents. */
  datatype Layers = Layers(global: Catalog, scoped: map<string, Catalog>) {
    ghost predicate Valid() {
      WellFiled(global) && forall s | s in scoped :: WellFiled(scoped[s])
    }

    predicate Has(scope: string, name: string) {
      scope in scoped && name in scoped[scope]
    }
  }

  /** The first scope of the list that has the name, else the global catalogue. */
  function GetForScopes(l: Layers, scopes: seq<string>, name: string): Option<Entry> {
    if scopes == [] then
      if name in l.global then Some(GlobalEntry(l.global[name])) else None
    else if l.Has(scopes[0], name) then
      Some(ScopedEntry(l.scoped[scopes[0]][name], scopes[0]))
    else
      GetForScopes(l, scopes[1..], name)
  }

  lemma SortedEnumeration(xs: seq<string>, scopes: set<string>)
    requires Enumerates(xs, scopes)
    ensures var r := Sorting.SortBy(xs, SK.ScopeLeq); Enumerates(r, scopes) && Sorting.StrictlySorted(r, SK.ScopeLeq)
  {
    SK.ScopeOrder();
    Sorting.SortByOfDistinct(xs, SK.ScopeLeq);
    Sorting.SortByPermutes(xs, SK.ScopeLeq);
  }

  lemma RankedExists(scopes: set<string>)
    ensures exists r :: Enumerates(r, scopes) && Sorting.StrictlySorted(r, SK.ScopeLeq)
  {
    var xs := EnumerationExists(scopes);
    SortedEnumeration(xs, scopes);
  }

  /** The scopes in order of rank and name. */
  ghost function Ranked(scopes: set<string>): (r: seq<string>)
    ensures Enumerates(r, scopes) && Sorting.StrictlySorted(r, SK.ScopeLeq)
  {
    RankedExists(scopes);
    var r :| Enumerates(r, scopes) && Sorting.StrictlySorted(r, SK.ScopeLeq);
    r
  }

  /** The lookup through all scopes, best rank first. */
  ghost function GetAny(l: Layers, name: string): Option<Entry> {
    GetForScopes(l, Ranked(l.scoped.Keys), name)
  }

  /** The lookup of one particular source. */
  function GetBySource(l: Layers, name: string, layer: string, scope: Option<string>): Option<Entry> {
    if layer == "global" then
      if scope.Some? then None
      else if name in l.global then Some(GlobalEntry(l.global[name]))
      else None
    else if scope.Some? && SK.ScopeLayer(scope.value) == layer && l.Has(scope.value, name) then
      Some(ScopedEntry(l.scoped[scope.value][name], scope.value))
    else
      None
  }

  // ---- what a search through scopes finds ----

  /** No scope of the list before position `i` has the name. */
  ghost predicate NoneBefore(l: Layers, scopes: seq<string>, i: nat, name: string)
    requires i <= |scopes|
  {
    forall j :: 0 <= j < i ==> !l.Has(scopes[j], name)
  }

  lemma {:induction false} SearchFindsFirst(l: Layers, scopes: seq<string>, i: nat, name: string)
    requires i < |scopes| && l.Has(scopes[i], name) && NoneBefore(l, scopes, i, name)
    ensures GetForScopes(l, scopes, name) == Some(ScopedEntry(l.scoped[scopes[i]][name], scopes[i]))
  {
    if i > 0 {
      forall j | 0 <= j < i - 1 ensures !l.Has(scopes[1..][j], name) {
        assert scopes[1..][j] == scopes[j + 1];
      }
      assert !l.Has(scopes[0], name);
      SearchFindsFirst(l, scopes[1..], i - 1, name);
    }
  }

  lemma {:induction false} SearchFallsBack(l: Layers, scopes: seq<string>, name: string)
    requires NoneBefore(l, scopes, |scopes|, name)
    ensures GetForScopes(l, scopes, name) == GetForScopes(l, [], name)
  {
    if scopes != [] {
      forall j | 0 <= j < |scopes[1..]| ensures !l.Has(scopes[1..][j], name) {
        assert scopes[1..][j] == scopes[j + 1];
      }
      SearchFallsBack(l, scopes[1..], name);
    }
  }

  /** Position of the first scope that has the name, or the length of the list. */
  function FirstWith(l: Layers, scopes: seq<string>, name: string): (i: nat)
    ensures i <= |scopes|
    ensures forall j :: 0 <= j < i ==> !l.Has(scopes[j], name)
    ensures i < |scopes| ==> l.Has(scopes[i], name)
  {
    if scopes == [] || l.Has(scopes[0], name) then 0 else 1 + FirstWith(l, scopes[1..], name)
  }

  lemma FirstExists(l: Layers, scopes: seq<string>, name: string)
    ensures NoneBefore(l, scopes, |scopes|, name)
            || exists i :: 0 <= i < |scopes| && l.Has(scopes[i], name) && NoneBefore(l, scopes, i, name)
  {
    var i := FirstWith(l, scopes, name);
    assert NoneBefore(l, scopes, i, name);
  }

  /** A lookup through a list of scopes answers the first one's skill that has the name, with its layer and scope;
      if none has it, the global catalogue's; and else nothing. */
  lemma ChainAnswerIff(l: Layers, scopes: seq<string>, name: string, e: Entry)
    ensures GetForScopes(l, scopes, name) == Some(e)
       <==> || (exists i :: 0 <= i < |scopes| && l.Has(scopes[i], name) && NoneBefore(l, scopes, i, name)
                            && e == Entry(l.scoped[scopes[i]][name], SK.ScopeLayer(scopes[i]), Some(scopes[i])))
            || (NoneBefore(l, scopes, |scopes|, name) && name in l.global && e == Entry(l.global[name], "global", None))
  {
    if i :| 0 <= i < |scopes| && l.Has(scopes[i], name) && NoneBefore(l, scopes, i, name) {
      SearchFindsFirst(l, scopes, i, name);
      assert forall j :: 0 <= j < |scopes| && l.Has(scopes[j], name) && NoneBefore(l, scopes, j, name) ==> j == i;
    } else {
      assert NoneBefore(l, scopes, |scopes|, name) by {
        FirstExists(l, scopes, name);
      }
      SearchFallsBack(l, scopes, name);
    }
  }

  /** `scope` is the best-ranked of the listed scopes that have the name. */
  ghost predicate Best(l: Layers, scopes: seq<string>, scope: string, name: string) {
    && scope in scopes && l.Has(scope, name)
    && forall other | other in scopes && l.Has(other, name) :: SK.ScopeLeq(scope, other)
  }

  lemma FirstOfRankedIsBest(l: Layers, scopes: seq<string>, i: nat, name: string)
    requires Sorting.StrictlySorted(scopes, SK.ScopeLeq)
    requires i < |scopes| && l.Has(scopes[i], name) && NoneBefore(l, scopes, i, name)
    ensures Best(l, scopes, scopes[i], name)
  {
    SK.ScopeOrder();
    forall other | other in scopes && l.Has(other, name) ensures SK.ScopeLeq(scopes[i], other) {
      var j :| 0 <= j < |scopes| && scopes[j] == other;
      assert i <= j;
    }
  }

  /** Searching a ranked list finds the best-ranked scope with the name, else the global entry. */
  lemma RankedSearchFindsBest(l: Layers, scopes: seq<string>, name: string) returns (i: nat)
    requires Sorting.StrictlySorted(scopes, SK.ScopeLeq)
    ensures i <= |scopes|
    ensures i < |scopes| ==> Best(l, scopes, scopes[i], name)
                             && GetForScopes(l, scopes, name) == Some(ScopedEntry(l.scoped[scopes[i]][name], scopes[i]))
    ensures i == |scopes| ==> NoneBefore(l, scopes, i, name)
                              && GetForScopes(l, scopes, name) == GetForScopes(l, [], name)
  {
    i := FirstWith(l, scopes, name);
    if i < |scopes| {
      SearchFindsFirst(l, scopes, i, name);
      FirstOfRankedIsBest(l, scopes, i, name);
    } else {
      SearchFallsBack(l, scopes, name);
    }
  }

  // ---- a visibility chain against the ranking of all scopes ----

  ghost function Restrict(l: Layers, scopes: seq<string>): Layers {
    Layers(l.global, map s | s in l.scoped && s in scopes :: l.scoped[s])
  }

  /** No scope comes for the first time after one that it should precede. */
  ghost predicate FirstsRanked(chain: seq<string>) {
    forall i, j :: 0 <= i < j < |chain| && chain[j] !in chain[..j] ==> SK.ScopeLeq(chain[i], chain[j])
  }

  lemma {:induction false} FirstOccurrence(chain: seq<string>, s: string) returns (j: nat)
    requires s in chain
    ensures j < |chain| && chain[j] == s && s !in chain[..j]
  {
    if chain[0] == s {
      j := 0;
    } else {
      j := FirstOccurrence(chain[1..], s);
      assert chain[..j + 1] == [chain[0]] + chain[1..][..j];
      j := j + 1;
    }
  }

  lemma FirstIsBest(l: Layers, chain: seq<string>, i: nat, name: string)
    requires FirstsRanked(chain) && i < |chain| && l.Has(chain[i], name) && NoneBefore(l, chain, i, name)
    ensures Best(l, chain, chain[i], name)
  {
    SK.ScopeOrder();
    forall other | other in chain && l.Has(other, name) ensures SK.ScopeLeq(chain[i], other) {
      var j := FirstOccurrence(chain, other);
      assert i <= j;
      assert i < j ==> SK.ScopeLeq(chain[i], chain[j]);
    }
  }

  /** Such a chain sees what the all-scopes lookup sees in the registry cut down to the chain's scopes. */
  lemma RankedChainSeesBest(l: Layers, chain: seq<string>, name: string)
    requires FirstsRanked(chain)
    ensures GetForScopes(l, chain, name) == GetAny(Restrict(l, chain), name)
  {
    var cut := Restrict(l, chain);
    var ranked := Ranked(cut.scoped.Keys);
    var k := RankedSearchFindsBest(cut, ranked, name);
    var i := FirstWith(l, chain, name);
    assert forall s :: cut.Has(s, name) <==> s in chain && l.Has(s, name);
    assert forall s :: cut.Has(s, name) ==> s in ranked;
    if i < |chain| {
      SearchFindsFirst(l, chain, i, name);
      FirstIsBest(l, chain, i, name);
      assert chain[i] in ranked;
      assert k < |ranked| && ranked[k] in chain;
      SK.ScopeOrder();
    } else {
      SearchFallsBack(l, chain, name);
    }
  }

  /** On every registry the chain sees what the all-scopes lookup sees among its scopes. */
  ghost predicate SeesBest(chain: seq<string>) {
    forall l: Layers, name :: GetForScopes(l, chain, name) == GetAny(Restrict(l, chain), name)
  }

  function TwoScopes(s: string, t: string): Layers {
    Layers(map[], map[s := map["x" := Skill("x", "")], t := map["x" := Skill("x", "")]])
  }

  /** Of two scopes with the same skill, the all-scopes lookup finds the better-ranked one. */
  lemma TwoScopesSearched(better: string, worse: string)
    requires SK.ScopeLeq(better, worse)
    ensures GetAny(TwoScopes(worse, better), "x") == Some(ScopedEntry(Skill("x", ""), better))
  {
    var l := TwoScopes(worse, better);
    var ranked := Ranked(l.scoped.Keys);
    var k := RankedSearchFindsBest(l, ranked, "x");
    SK.ScopeOrder();
    assert better in ranked && l.Has(better, "x");
  }

  lemma RestrictTwoScopes(chain: seq<string>, s: string, t: string)
    requires s in chain && t in chain
    ensures Restrict(TwoScopes(s, t), chain) == TwoScopes(s, t)
  {
    assert Restrict(TwoScopes(s, t), chain).scoped == TwoScopes(s, t).scoped;
  }

  lemma FirstOfTwoScopes(chain: seq<string>, i: nat, j: nat)
    requires i < j < |chain| && chain[j] !in chain[..j]
    ensures GetForScopes(TwoScopes(chain[i], chain[j]), chain, "x") == Some(ScopedEntry(Skill("x", ""), chain[i]))
  {
    var l := TwoScopes(chain[i], chain[j]);
    var f := FirstWith(l, chain, "x");
    assert l.Has(chain[i], "x") && f <= i;
    assert chain[f] == chain[..j][f] && chain[f] != chain[j];
    SearchFindsFirst(l, chain, f, "x");
  }

  lemma MisrankedPair(chain: seq<string>, i: nat, j: nat)
    requires i < j < |chain| && chain[j] !in chain[..j] && SK.ScopeLeq(chain[j], chain[i])
    ensures !SeesBest(chain)
  {
    var l := TwoScopes(chain[i], chain[j]);
    assert chain[i] == chain[..j][i];
    RestrictTwoScopes(chain, chain[i], chain[j]);
    TwoScopesSearched(chain[j], chain[i]);
    FirstOfTwoScopes(chain, i, j);
    assert GetForScopes(l, chain, "x") != GetAny(Restrict(l, chain), "x");
  }

  /** Exactly the lists in which every scope's first occurrence follows only scopes ranked above it agree
      with the all-scopes lookup on every registry; repetitions do no harm. */
  lemma ChainsThatAgreeIff(chain: seq<string>)
    ensures SeesBest(chain) <==> FirstsRanked(chain)
  {
    if FirstsRanked(chain) {
      forall l: Layers, name ensures GetForScopes(l, chain, name) == GetAny(Restrict(l, chain), name) {
        RankedChainSeesBest(l, chain, name);
      }
    } else {
      var i, j :| 0 <= i < j < |chain| && chain[j] !in chain[..j] && !SK.ScopeLeq(chain[i], chain[j]);
      SK.ScopeOrder();
      MisrankedPair(chain, i, j);
    }
  }

  /** What a session sees is what the all-scopes lookup would find among the scopes visible to it. */
  lemma SessionSeesItsBestScope(k: SK.SessionKey, context: Option<SK.AccessContext>, l: Layers, name: string)
    requires context.Some? ==> SK.WellPrefixed(context.value)
    ensures var chain := SK.VisibilityChain(SK.NamespaceFor(k, context));
            GetForScopes(l, chain, name) == GetAny(Restrict(l, chain), name)
  {
    SK.VisibilityChainIsRanked(k, context);
    RankedChainSeesBest(l, SK.VisibilityChain(SK.NamespaceFor(k, context)), name);
  }

  // ---- the list of all entries ----

  ghost predicate FromGlobal(l: Layers, e: Entry) {
    exists n :: n in l.global && e == Entry(l.global[n], "global", None)
  }

  ghost predicate FromScope(l: Layers, s: string, e: Entry) {
    exists n :: l.Has(s, n) && e == Entry(l.scoped[s][n], SK.ScopeLayer(s), Some(s))
  }

  ghost predicate IsEntry(l: Layers, e: Entry) {
    FromGlobal(l, e) || exists s :: FromScope(l, s, e)
  }

  function ScopeText(e: Entry): string {
    if e.sourceScope.Some? then e.sourceScope.value else ""
  }

  /** By name, then by rank, then by scope. */
  predicate EntryLeq(a: Entry, b: Entry) {
    var ra, rb := SK.LayerRank(a.sourceLayer), SK.LayerRank(b.sourceLayer);
    if a.skill.name != b.skill.name then Text.Leq(a.skill.name, b.skill.name)
    else if ra != rb then ra < rb
    else Text.Leq(ScopeText(a), ScopeText(b))
  }

  lemma EntryOrder()
    ensures Sorting.IsPreorder(EntryLeq)
  {
    SK.TextOrder();
    forall a, b ensures EntryLeq(a, b) || EntryLeq(b, a) {
    }
    forall a, b, c | EntryLeq(a, b) && EntryLeq(b, c) ensures EntryLeq(a, c) {
    }
  }

  /** No two entries tie. */
  lemma EntriesDoNotTie(l: Layers, a: Entry, b: Entry)
    requires l.Valid() && IsEntry(l, a) && IsEntry(l, b)
    requires EntryLeq(a, b) && EntryLeq(b, a)
    ensures a == b
  {
    SK.TextOrder();
    assert a.skill.name == b.skill.name && ScopeText(a) == ScopeText(b);
    assert SK.LayerRank(a.sourceLayer) == SK.LayerRank(b.sourceLayer);
    assert SK.ScopeRank("") == 7;
  }

  /** `listing` is what `list_all_entries` returns. */
  ghost predicate IsListing(l: Layers, listing: seq<Entry>) {
    && Sorting.StrictlySorted(listing, EntryLeq)
    && forall e :: e in listing <==> IsEntry(l, e)
  }

  /** Names come in order; entries of one name by the rank of their layers, and then by scope. */
  lemma ListingInOrder(l: Layers, listing: seq<Entry>, i: nat, j: nat)
    requires IsListing(l, listing) && i < j < |listing|
    ensures Text.Leq(listing[i].skill.name, listing[j].skill.name)
    ensures listing[i].skill.name == listing[j].skill.name ==>
              SK.LayerRank(listing[i].sourceLayer) <= SK.LayerRank(listing[j].sourceLayer)
    ensures listing[i].skill.name == listing[j].skill.name
            && SK.LayerRank(listing[i].sourceLayer) == SK.LayerRank(listing[j].sourceLayer) ==>
              listing[i].sourceScope.None?
              || (listing[j].sourceScope.Some?
                  && Text.Leq(listing[i].sourceScope.value, listing[j].sourceScope.value))
  {
    assert EntryLeq(listing[i], listing[j]);
    Text.LeqTotal(listing[i].skill.name, listing[i].skill.name);
  }

  /** There is only one such list, whatever order the hash maps iterate in. */
  lemma ListingIsUnique(l: Layers, one: seq<Entry>, other: seq<Entry>)
    requires IsListing(l, one) && IsListing(l, other)
    ensures one == other
  {
    Sorting.StrictlySortedIsUnique(one, other, EntryLeq);
  }

  function FirstNamed(listing: seq<Entry>, name: string): Option<Entry> {
    if listing == [] then None
    else if listing[0].skill.name == name then Some(listing[0])
    else FirstNamed(listing[1..], name)
  }

  lemma {:induction false} FirstNamedIsLeast(listing: seq<Entry>, name: string, e: Entry)
    requires Sorting.StrictlySorted(listing, EntryLeq)
    requires e in listing && e.skill.name == name
    requires forall x | x in listing && x.skill.name == name :: EntryLeq(e, x)
    ensures FirstNamed(listing, name) == Some(e)
  {
    if listing[0].skill.name == name {
      var i :| 0 <= i < |listing| && listing[i] == e;
      assert EntryLeq(e, listing[0]);
    } else {
      assert forall x :: x in listing[1..] ==> x in listing;
      var i :| 0 <= i < |listing| && listing[i] == e;
      assert e == listing[1..][i - 1];
      FirstNamedIsLeast(listing[1..], name, e);
    }
  }

  lemma {:induction false} FirstNamedAbsent(listing: seq<Entry>, name: string)
    requires forall x | x in listing :: x.skill.name != name
    ensures FirstNamed(listing, name) == None
  {
    if listing != [] {
      FirstNamedAbsent(listing[1..], name);
    }
  }

  /** Some scope that has the name is ranked above the global catalogue. */
  ghost predicate OutranksGlobal(l: Layers, name: string) {
    exists s :: l.Has(s, name) && SK.ScopeRank(s) < SK.LayerRank("global")
  }

  lemma NoScopeHas(l: Layers, ranked: seq<string>, name: string)
    requires Enumerates(ranked, l.scoped.Keys) && NoneBefore(l, ranked, |ranked|, name)
    ensures forall s :: !l.Has(s, name)
  {
    forall s ensures !l.Has(s, name) {
      if s in l.scoped {
        var j :| 0 <= j < |ranked| && ranked[j] == s;
      }
    }
  }

  lemma NamedEntries(l: Layers, e: Entry, name: string)
    requires l.Valid() && IsEntry(l, e) && e.skill.name == name
    ensures (name in l.global && e == GlobalEntry(l.global[name]))
            || exists s :: l.Has(s, name) && e == ScopedEntry(l.scoped[s][name], s)
  {
  }

  lemma NobodyListsIt(l: Layers, listing: seq<Entry>, name: string)
    requires l.Valid() && IsListing(l, listing)
    requires name !in l.global && forall s :: !l.Has(s, name)
    ensures FirstNamed(listing, name) == None
  {
    forall x | x in listing ensures x.skill.name != name {
      if x.skill.name == name {
        NamedEntries(l, x, name);
      }
    }
    FirstNamedAbsent(listing, name);
  }

  lemma GlobalComesFirst(l: Layers, listing: seq<Entry>, name: string)
    requires l.Valid() && IsListing(l, listing) && name in l.global
    requires forall s | l.Has(s, name) :: SK.ScopeRank(s) >= SK.LayerRank("global")
    ensures FirstNamed(listing, name) == Some(GlobalEntry(l.global[name]))
  {
    var e := GlobalEntry(l.global[name]);
    assert IsEntry(l, e);
    SK.TextOrder();
    forall x | x in listing && x.skill.name == name ensures EntryLeq(e, x) {
      NamedEntries(l, x, name);
    }
    FirstNamedIsLeast(listing, name, e);
  }

  lemma ScopedComesFirst(l: Layers, listing: seq<Entry>, s: string, name: string)
    requires l.Valid() && IsListing(l, listing) && l.Has(s, name)
    requires forall other | l.Has(other, name) :: SK.ScopeLeq(s, other)
    requires name in l.global ==> SK.ScopeRank(s) < SK.LayerRank("global")
    ensures FirstNamed(listing, name) == Some(ScopedEntry(l.scoped[s][name], s))
  {
    var e := ScopedEntry(l.scoped[s][name], s);
    assert FromScope(l, s, e) && IsEntry(l, e);
    forall x | x in listing && x.skill.name == name ensures EntryLeq(e, x) {
      NamedEntries(l, x, name);
    }
    FirstNamedIsLeast(listing, name, e);
  }

  /** The first listed entry of a name is what the all-scopes lookup answers, unless the name is in the
      global catalogue and in scopes none of which ranks above it: the list then puts the global entry
      first, the lookup the scoped one. */
  lemma FirstListedIsAnyIff(l: Layers, listing: seq<Entry>, name: string)
    requires l.Valid() && IsListing(l, listing)
    ensures FirstNamed(listing, name) == GetAny(l, name)
       <==> (name in l.global && (exists s :: l.Has(s, name)) ==> OutranksGlobal(l, name))
  {
    var ranked := Ranked(l.scoped.Keys);
    var i := RankedSearchFindsBest(l, ranked, name);
    if i == |ranked| {
      NoScopeHas(l, ranked, name);
      if name in l.global {
        GlobalComesFirst(l, listing, name);
      } else {
        NobodyListsIt(l, listing, name);
      }
    } else {
      var s := ranked[i];
      assert l.Has(s, name);
      forall other | l.Has(other, name) ensures SK.ScopeLeq(s, other) {
        assert other in ranked;
      }
      if name in l.global && SK.ScopeRank(s) >= SK.LayerRank("global") {
        GlobalComesFirst(l, listing, name);
        assert !OutranksGlobal(l, name);
      } else {
        ScopedComesFirst(l, listing, s, name);
        assert SK.ScopeRank(s) < SK.LayerRank("global") ==> OutranksGlobal(l, name);
      }
    }
  }

  /** A skill that is both global and in a scope of no known prefix: listed first is the global one, found
      is the scoped one. */
  lemma GlobalCanComeFirst(g: Skill, misc: Skill)
    requires g.name == misc.name
    ensures var l := Layers(map[g.name := g], map["misc" := map[g.name := misc]]);
            var listing := [GlobalEntry(g), ScopedEntry(misc, "misc")];
            && IsListing(l, listing) && FirstNamed(listing, g.name) == Some(GlobalEntry(g))
            && GetAny(l, g.name) == Some(ScopedEntry(misc, "misc"))
  {
    var l := Layers(map[g.name := g], map["misc" := map[g.name := misc]]);
    var listing := [GlobalEntry(g), ScopedEntry(misc, "misc")];
    forall e ensures e in listing <==> IsEntry(l, e) {
      assert FromGlobal(l, e) <==> e == GlobalEntry(l.global[g.name]);
      assert l.Has("misc", g.name) && (FromScope(l, "misc", e) <==> e == ScopedEntry(l.scoped["misc"][g.name], "misc"));
      assert forall s :: FromScope(l, s, e) ==> s == "misc";
    }
    var i := RankedSearchFindsBest(l, Ranked(l.scoped.Keys), g.name);
    assert "misc" in Ranked(l.scoped.Keys) && l.Has("misc", g.name);
  }

  /** An entry is recovered from its own layer and scope, unless it comes from a registry
      that was filed under the scope name `global`. */
  lemma EntryRecoveredIff(l: Layers, e: Entry)
    requires l.Valid() && IsEntry(l, e)
    ensures GetBySource(l, e.skill.name, e.sourceLayer, e.sourceScope) == Some(e) <==> e.sourceScope != Some("global")
  {
  }

  /** A registry filed under the scope name `global` lists an entry whose own source does not answer. */
  lemma EntryCanBeMissed(skill: Skill)
    ensures var l, e := Layers(map[], map["global" := map[skill.name := skill]]), ScopedEntry(skill, "global");
            l.Valid() && IsEntry(l, e) && GetBySource(l, skill.name, e.sourceLayer, e.sourceScope) == None
  {
    var l := Layers(map[], map["global" := map[skill.name := skill]]);
    assert l.Has("global", skill.name) && FromScope(l, "global", ScopedEntry(skill, "global"));
  }

  /** A lookup by source never answers anything but a listed entry of that very source. */
  lemma SourceAnswersAreEntries(l: Layers, name: string, layer: string, scope: Option<string>)
    ensures var answer := GetBySource(l, name, layer, scope);
            answer.Some? ==> IsEntry(l, answer.value)
                             && answer.value.sourceLayer == layer && answer.value.sourceScope == scope
  {
    var answer := GetBySource(l, name, layer, scope);
    if answer.Some? {
      assert if layer == "global" then FromGlobal(l, answer.value) else FromScope(l, scope.value, answer.value);
    }
  }

  // ---- the program's registry ----

  lemma VisibleIff(l: Layers, scopes: seq<string>, name: string)
    ensures GetForScopes(l, scopes, name).Some?
       <==> name in l.global || exists j :: 0 <= j < |scopes| && l.Has(scopes[j], name)
  {
    var i := FirstWith(l, scopes, name);
    if i < |scopes| {
      SearchFindsFirst(l, scopes, i, name);
    } else {
      SearchFallsBack(l, scopes, name);
    }
  }

  ghost predicate FromFirst(l: Layers, scopes: seq<string>, i: nat, e: Entry)
    requires i <= |scopes|
  {
    exists j :: 0 <= j < i && FromScope(l, scopes[j], e)
  }

  lemma AllScopesCovered(l: Layers, scopes: seq<string>)
    requires forall s :: s in scopes <==> s in l.scoped
    ensures forall e :: (exists s :: FromScope(l, s, e)) <==> FromFirst(l, scopes, |scopes|, e)
  {
    forall e ensures (exists s :: FromScope(l, s, e)) <==> FromFirst(l, scopes, |scopes|, e) {
      if s :| FromScope(l, s, e) {
        assert s in scopes;
        var j :| 0 <= j < |scopes| && scopes[j] == s;
        assert FromScope(l, scopes[j], e);
      }
    }
  }

  lemma AppendOtherScope(l: Layers, scopes: seq<string>, i: nat, entries: seq<Entry>, more: seq<Entry>)
    requires i < |scopes| && (forall a, b :: 0 <= a < b < |scopes| ==> scopes[a] != scopes[b])
    requires Distinct(entries) && Distinct(more)
    requires forall e :: e in entries <==> FromGlobal(l, e) || FromFirst(l, scopes, i, e)
    requires forall e :: e in more <==> FromScope(l, scopes[i], e)
    ensures Distinct(entries + more)
    ensures forall e :: e in entries + more <==> FromGlobal(l, e) || FromFirst(l, scopes, i + 1, e)
  {
    forall a, b | 0 <= a < |entries| && 0 <= b < |more| ensures entries[a] != more[b] {
      assert more[b] in more && entries[a] in entries;
      assert more[b].sourceScope == Some(scopes[i]);
      if FromFirst(l, scopes, i, entries[a]) {
        var j :| 0 <= j < i && FromScope(l, scopes[j], entries[a]);
        assert entries[a].sourceScope == Some(scopes[j]);
      }
    }
    forall e ensures e in entries + more <==> FromGlobal(l, e) || FromFirst(l, scopes, i + 1, e) {
      if FromFirst(l, scopes, i, e) {
        var j :| 0 <= j < i && FromScope(l, scopes[j], e);
        assert FromScope(l, scopes[j], e) && j < i + 1;
      }
      if e in more {
        assert FromScope(l, scopes[i], e);
      }
    }
  }

  /** One registry's skills as entries, in hash-map order. */
  method CollectEntries(catalog: Catalog, layer: string, scope: Option<string>) returns (entries: seq<Entry>)
    requires WellFiled(catalog)
    ensures Distinct(entries)
    ensures forall e :: e in entries <==> exists n :: n in catalog && e == Entry(catalog[n], layer, scope)
  {
    var names := CollectKeys(catalog.Keys);
    entries := [];
    for i := 0 to |names|
      invariant |entries| == i
      invariant forall j :: 0 <= j < i ==> entries[j] == Entry(catalog[names[j]], layer, scope)
    {
      assert names[i] in catalog;
      entries := entries + [Entry(catalog[names[i]], layer, scope)];
    }
    forall i, j | 0 <= i < j < |entries| ensures entries[i] != entries[j] {
      assert names[i] in catalog && names[j] in catalog && names[i] != names[j];
    }
    forall e ensures e in entries <==> exists n :: n in catalog && e == Entry(catalog[n], layer, scope) {
      if n :| n in catalog && e == Entry(catalog[n], layer, scope) {
        var j :| 0 <= j < |names| && names[j] == n;
        assert entries[j] == e;
      }
      if e in entries {
        var j :| 0 <= j < |entries| && entries[j] == e;
        assert names[j] in catalog;
      }
    }
  }

  class LayeredSkillRegistry {
    var global: Catalog
    var scoped: map<string, Catalog>

    ghost function Abs(): Layers
      reads this
    {
      Layers(global, scoped)
    }

    constructor (g: Catalog)
      ensures Abs() == Layers(g, map[])
    {
      global, scoped := g, map[];
    }

    /** An empty registry takes the scope out. */
    method RegisterScoped(scope: string, catalog: Catalog)
      modifies this
      ensures global == old(global)
      ensures scoped == if catalog == map[] then old(scoped) - {scope} else old(scoped)[scope := catalog]
      ensures old(Abs().Valid()) && WellFiled(catalog) ==> Abs().Valid()
      ensures forall name :: Abs().Has(scope, name) <==> name in catalog
    {
      if catalog == map[] {
        scoped := scoped - {scope};
      } else {
        scoped := scoped[scope := catalog];
      }
    }

    method GetForScopesEntry(scopes: seq<string>, name: string) returns (found: Option<Entry>)
      ensures found == GetForScopes(Abs(), scopes, name)
    {
      var i := 0;
      assert scopes[0..] == scopes;
      while i < |scopes|
        invariant i <= |scopes|
        invariant GetForScopes(Abs(), scopes, name) == GetForScopes(Abs(), scopes[i..], name)
      {
        var scope := scopes[i];
        assert scopes[i..][1..] == scopes[i + 1..];
        if scope in scoped && name in scoped[scope] {
          return Some(ScopedEntry(scoped[scope][name], scope));
        }
        i := i + 1;
      }
      found := if name in global then Some(GlobalEntry(global[name])) else None;
    }

    /** Collects the scopes, sorts them by rank and searches them. */
    method GetAnyEntry(name: string) returns (found: Option<Entry>)
      ensures found == GetAny(Abs(), name)
    {
      var keys := CollectKeys(scoped.Keys);
      var scopes := Sorting.SortBy(keys, SK.ScopeLeq);
      SortedEnumeration(keys, scoped.Keys);
      Sorting.StrictlySortedIsUnique(scopes, Ranked(scoped.Keys), SK.ScopeLeq);
      found := GetForScopesEntry(scopes, name);
    }

    method GetEntryBySource(name: string, layer: string, scope: Option<string>) returns (found: Option<Entry>)
      ensures found == GetBySource(Abs(), name, layer, scope)
    {
      if layer == "global" {
        if scope.Some? || name !in global {
          return None;
        }
        return Some(GlobalEntry(global[name]));
      }
      if scope.None? || SK.ScopeLayer(scope.value) != layer || scope.value !in scoped || name !in scoped[scope.value] {
        return None;
      }
      found := Some(ScopedEntry(scoped[scope.value][name], scope.value));
    }

    /** Collects every registry's skills in hash-map order and sorts them. */
    method ListAllEntries() returns (entries: seq<Entry>)
      requires Abs().Valid()
      ensures IsListing(Abs(), entries)
      ensures forall i, j :: 0 <= i < j < |entries| ==> Text.Leq(entries[i].skill.name, entries[j].skill.name)
    {
      ghost var l := Abs();
      entries := CollectEntries(global, "global", None);
      assert forall e :: e in entries <==> FromGlobal(l, e);
      var keys := CollectKeys(scoped.Keys);
      var scopes := Sorting.SortBy(keys, Text.Leq);
      SK.TextOrder();
      Sorting.SortByOfDistinct(keys, Text.Leq);
      Sorting.SortByPermutes(keys, Text.Leq);
      for i := 0 to |scopes|
        invariant Distinct(entries)
        invariant forall e :: e in entries <==> FromGlobal(l, e) || FromFirst(l, scopes, i, e)
      {
        var more := CollectEntries(scoped[scopes[i]], SK.ScopeLayer(scopes[i]), Some(scopes[i]));
        assert forall e :: e in more <==> FromScope(l, scopes[i], e);
        AppendOtherScope(l, scopes, i, entries, more);
        entries := entries + more;
      }
      assert forall e :: e in entries <==> IsEntry(l, e) by {
        AllScopesCovered(l, scopes);
      }
      EntryOrder();
      forall a, b | a in entries && b in entries && EntryLeq(a, b) && EntryLeq(b, a) ensures a == b {
        EntriesDoNotTie(l, a, b);
      }
      Sorting.SortByOfDistinct(entries, EntryLeq);
      Sorting.SortByPermutes(entries, EntryLeq);
      entries := Sorting.SortBy(entries, EntryLeq);
      forall i, j | 0 <= i < j < |entries| ensures Text.Leq(entries[i].skill.name, entries[j].skill.name) {
        ListingInOrder(l, entries, i, j);
      }
    }

    /** The sorted names of everything the chain's scopes and the global catalogue hold. */
    method ListNamesForScopes(scopes: seq<string>) returns (names: seq<string>)
      ensures Sorting.StrictlySorted(names, Text.Leq)
      ensures forall n :: n in names <==> GetForScopes(Abs(), scopes, n).Some?
    {
      ghost var l := Abs();
      names := CollectKeys(global.Keys);
      var i := |scopes|;
      while i > 0
        invariant 0 <= i <= |scopes|
        invariant forall n :: n in names <==> n in global || exists j :: i <= j < |scopes| && l.Has(scopes[j], n)
      {
        i := i - 1;
        if scopes[i] in scoped {
          var more := CollectKeys(scoped[scopes[i]].Keys);
          names := names + more;
        }
      }
      forall n ensures n in names <==> GetForScopes(l, scopes, n).Some? {
        VisibleIff(l, scopes, n);
      }
      var sorted := Sorting.SortBy(names, Text.Leq);
      SK.TextOrder();
      Sorting.SortBySorts(names, Text.Leq);
      Sorting.SortByPermutes(names, Text.Leq);
      Sorting.DedupOfSorted(sorted, Text.Leq);
      Sorting.DedupKeepsElements(sorted);
      names := Sorting.Dedup(sorted);
    }
  }
}
