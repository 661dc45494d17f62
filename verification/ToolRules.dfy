/** The conditions of a selection in the names that the source writes. */
module ToolRules {
  import opened Wrappers
  import opened PyStrings
  import opened Sorting
  import opened ToolSelection
  import opened ToolSelectionTheorems
  import opened ToolMandatory

  // ---------------------------------------------------------------- mail

  /** No registered tool reads real mail. */
  ghost predicate NoRealMail(registry: seq<Tool>) {
    forall t :: t in registry ==>
      t.kind != "IMAP_READ" || "inbox." <= t.name || "email." <= t.name || "quarantined." <= t.name
  }

  ghost predicate Offers(tools: seq<Tool>, name: string) { exists t :: t in tools && t.name == name }

  /** A listing that the summary tool replaces. */
  ghost predicate Lists(name: string) {
    exists front :: name == front + ".imap.list_threads" || name == front + ".imap.search"
  }

  lemma ListsIff(t: Tool)
    ensures IsMailListing(t) <==> Lists(t.name)
  {
    EndsWithIff(t.name, ".imap.list_threads");
    EndsWithIff(t.name, ".imap.search");
  }

  /** Exactly which tools a turn may be offered. */
  lemma MailShownIff(turn: Turn, tools: seq<Tool>, t: Tool)
    ensures t in MailSurface(turn, tools) <==> (t in tools &&
      if turn.demoRequest || (turn.purpose != "inbox" && !turn.mailRequest) || NoRealMail(turn.registry) then true
      else if Offers(tools, "quarantined.summarize_mail") && turn.recentSummary then t.name == "quarantined.summarize_mail"
      else !("inbox." <= t.name) && t.name != "quarantined.extract_inbox"
           && !(Offers(tools, "quarantined.summarize_mail") && Lists(t.name)))
  {
    HasNameIn(tools, "quarantined.summarize_mail");
    ListsIff(t);
    RealMailIff(turn);
  }

  lemma RealMailIff(turn: Turn)
    ensures HasRealMail(turn) <==> !NoRealMail(turn.registry)
  {
    if t :| t in turn.registry && !(t.kind != "IMAP_READ" || "inbox." <= t.name || "email." <= t.name || "quarantined." <= t.name) {
      var i :| 0 <= i < |turn.registry| && turn.registry[i] == t;
      assert IsRealMail(turn.registry[i]);
    }
  }

  // ---------------------------------------------------------------- mandatory tools

  /** The first of the names that some tool has. */
  ghost predicate FirstOffered(names: seq<string>, tools: seq<Tool>, name: string) {
    exists k :: 0 <= k < |names| && names[k] == name && Offers(tools, name) && forall j :: 0 <= j < k ==> !Offers(tools, names[j])
  }

  /** Why a visible tool is mandatory. */
  ghost predicate Demanded(turn: Turn, fs: Families, visible: seq<Tool>, t: Tool) {
    || t.name in fs.mandatoryAlways
    || ((turn.purpose == "inbox" || turn.mailRequest) && t.kind == "IMAP_READ" && !("inbox." <= t.name))
    || (turn.dualLlm && "quarantined." <= t.name)
    || (turn.webSearch && !turn.imageGeneration
        && if Offers(visible, "kagi.kagi_search_fetch") then t.name == "kagi.kagi_search_fetch"
           else t.name == "web.search" || t.name == "bundled-search.search.web")
    || ((turn.imageFetch || turn.wikipedia)
        && FirstOffered(["bundled-fetch.wikipedia.lookup", "wikipedia.lookup"], visible, t.name))
    || (turn.imageFetch
        && FirstOffered(["bundled-image-fetch.image.fetch", "bundled-images.image.fetch", "image.fetch"], visible, t.name))
    || (turn.imageGeneration && !turn.imageFetch && !turn.wikipedia
        && FirstOffered(["bundled-image-generate.image.generate", "bundled-images.image.generate", "image.generate"],
                        visible, t.name))
    || (turn.chart && t.name == "chart.plot")
  }

  lemma {:induction false} FirstPresentIs(names: seq<string>, visible: seq<Tool>, name: string)
    ensures name in FirstPresent(names, visible) <==> FirstOffered(names, visible, name)
  {
    if names != [] {
      HasNameIn(visible, names[0]);
      FirstPresentIs(names[1..], visible, name);
      if FirstOffered(names[1..], visible, name) && !HasName(visible, names[0]) {
        var k :| 0 <= k < |names[1..]| && names[1..][k] == name && forall j :: 0 <= j < k ==> !Offers(visible, names[1..][j]);
        forall j | 0 <= j < k + 1 ensures !Offers(visible, names[j]) {
          if j > 0 { assert names[j] == names[1..][j - 1]; }
        }
        assert names[k + 1] == name;
      }
      if FirstOffered(names, visible, name) {
        var k :| 0 <= k < |names| && names[k] == name && forall j :: 0 <= j < k ==> !Offers(visible, names[j]);
        if k > 0 {
          assert !Offers(visible, names[0]);
          assert names[1..][k - 1] == name;
          assert forall j | 0 <= j < k - 1 :: names[1..][j] == names[j + 1];
        }
      }
    }
  }

  lemma NamedAmong(visible: seq<Tool>, keep: Tool -> bool, t: Tool)
    requires DistinctNames(visible) && t in visible
    ensures t.name in NamesOf(Filter(visible, keep)) <==> keep(t)
  {
    var kept := Filter(visible, keep);
    if t.name in NamesOf(kept) {
      var i :| 0 <= i < |NamesOf(kept)| && NamesOf(kept)[i] == t.name;
      assert kept[i] in kept;
      SameNameSameTool(visible, kept[i], t);
    }
    if keep(t) {
      var i :| 0 <= i < |kept| && kept[i] == t;
      assert NamesOf(kept)[i] == t.name;
    }
  }

  /** The names the turn makes mandatory are those with a reason. */
  lemma DemandedIff(turn: Turn, fs: Families, visible: seq<Tool>, t: Tool)
    requires DistinctNames(visible) && t in visible
    ensures t.name in MandatoryNames(turn, fs, visible) <==> Demanded(turn, fs, visible, t)
  {
    NamedAmong(visible, (u: Tool) => u.kind == IMAP_READ && !("inbox." <= u.name), t);
    NamedAmong(visible, (u: Tool) => "quarantined." <= u.name, t);
    NamedAmong(visible, (u: Tool) => IsLegacySearch(u.name), t);
    HasNameIn(visible, KAGI);
    HasNameIn(visible, "chart.plot");
    FirstPresentIs(WIKIPEDIA_TOOLS, visible, t.name);
    FirstPresentIs(FETCH_TOOLS, visible, t.name);
    FirstPresentIs(GENERATE_TOOLS, visible, t.name);
  }

  /** On the retrieval path: what is recorded was demanded and is selected, and what is demanded is recorded unless
      mandatory tools fill the cap. */
  lemma RecordedIff(turn: Turn, fs: Families, cfg: Config, tools: seq<Tool>, t: Tool)
    requires DistinctNames(tools) && t in MailSurface(turn, tools)
    requires Select(turn, fs, cfg, tools).how == FamilyRetrieve
    ensures var s := Select(turn, fs, cfg, tools);
            && (t.name in s.mandatoryAdded ==> t in s.selected && Demanded(turn, fs, MailSurface(turn, tools), t))
            && (Demanded(turn, fs, MailSurface(turn, tools), t) ==>
                  t.name in s.mandatoryAdded || |s.mandatoryAdded| == cfg.maxSelected)
  {
    var visible := MailSurface(turn, tools);
    var s, picked := Select(turn, fs, cfg, tools), Picked(turn, fs, cfg, visible);
    MailSurfaceFacts(turn, tools);
    DemandedIff(turn, fs, visible, t);
    if t.name in MandatoryNames(turn, fs, visible) { MandatorySelected(turn, fs, cfg, tools, t); }
    if t.name in s.mandatoryAdded {
      var i :| 0 <= i < |picked| && picked[i].name == t.name;
      OrderFacts(turn, fs, visible);
      PresentSubset(MandatoryOrder(turn, fs, visible), visible);
      assert picked[i] in picked && picked[i] in Present(MandatoryOrder(turn, fs, visible), visible);
      SameNameSameTool(visible, picked[i], t);
      RetrievalMembers(turn, fs, cfg, tools);
    }
  }

  /** Mandatory names are taken in this order: always mandatory ones first, and by name. */
  ghost predicate GoesFirst(fs: Families, m: string, n: string) {
    || (m in fs.mandatoryAlways && n !in fs.mandatoryAlways)
    || ((m in fs.mandatoryAlways <==> n in fs.mandatoryAlways) && Earlier(m, n))
  }

  lemma GoesFirstIff(fs: Families, m: string, n: string)
    ensures Less(MandatoryKey(fs)(m), MandatoryKey(fs)(n)) <==> GoesFirst(fs, m, n)
  {
    EarlierIff(m, n);
    assert MandatoryKey(fs)(m)[1..] == Chars(m) && MandatoryKey(fs)(n)[1..] == Chars(n);
  }

  /** The recorded names are in that order, and all of them come before a demanded one that is left out. */
  lemma RecordedOrder(turn: Turn, fs: Families, cfg: Config, tools: seq<Tool>)
    requires DistinctNames(tools)
    requires Select(turn, fs, cfg, tools).how == FamilyRetrieve
    ensures var added, surface := Select(turn, fs, cfg, tools).mandatoryAdded, MailSurface(turn, tools);
            && (forall i, j :: 0 <= i < j < |added| ==> GoesFirst(fs, added[i], added[j]))
            && (forall t, i :: t in surface && Demanded(turn, fs, surface, t) && t.name !in added && 0 <= i < |added| ==>
                  GoesFirst(fs, added[i], t.name))
  {
    var visible := MailSurface(turn, tools);
    var order, picked := MandatoryOrder(turn, fs, visible), Picked(turn, fs, cfg, visible);
    var present, key := Present(order, visible), (t: Tool) => MandatoryKey(fs)(t.name);
    MailSurfaceFacts(turn, tools);
    OrderFacts(turn, fs, visible);
    PresentOrdered(order, visible, MandatoryKey(fs));
    PresentSubset(order, visible);
    forall i, j | 0 <= i < j < |picked| ensures GoesFirst(fs, picked[i].name, picked[j].name) {
      assert picked[i] == present[i] && picked[j] == present[j];
      GoesFirstIff(fs, picked[i].name, picked[j].name);
    }
    forall t, i | t in visible && Demanded(turn, fs, visible, t) && t.name !in NamesOf(picked) && 0 <= i < |picked|
      ensures GoesFirst(fs, picked[i].name, t.name)
    {
      DemandedIff(turn, fs, visible, t);
      PickedByName(present, t, visible);
      if t in picked { InNames(picked, t); }
      CutFirst(present, cfg.maxSelected, key, picked[i], t);
      GoesFirstIff(fs, picked[i].name, t.name);
    }
  }

  lemma InNames(ts: seq<Tool>, t: Tool)
    requires t in ts
    ensures t.name in NamesOf(ts)
  {
    var i :| 0 <= i < |ts| && ts[i] == t;
    assert NamesOf(ts)[i] == t.name;
  }

  // ---------------------------------------------------------------- narrowing

  /** Entry k is the first of the listed families that satisfies a condition. */
  ghost predicate FirstWith(families: seq<NamedFamily>, holds: NamedFamily -> bool, k: nat) {
    k < |families| && holds(families[k]) && forall j :: 0 <= j < k ==> !holds(families[j])
  }

  /** The family of a purpose: the first with that handle, else the first that is called `general`. */
  ghost predicate IsFamilyOf(fs: Families, purpose: string, f: Family) {
    || (exists k: nat :: FirstWith(fs.families, (n: NamedFamily) => purpose in n.family.handles, k) && fs.families[k].family == f)
    || ((forall j :: 0 <= j < |fs.families| ==> purpose !in fs.families[j].family.handles)
        && exists k: nat :: FirstWith(fs.families, (n: NamedFamily) => n.id == "general", k) && fs.families[k].family == f)
  }

  /** A tool fits a family by its kind or by a prefix of its name; every tool fits one that names neither. */
  ghost predicate Fits(t: Tool, f: Family) {
    t.kind in f.kinds || (exists p :: p in f.prefixes && p <= t.name) || (f.kinds == {} && f.prefixes == [])
  }

  lemma FitsIff(t: Tool, f: Family)
    ensures Matches(t, f) <==> Fits(t, f)
  {
    if p :| p in f.prefixes && p <= t.name {
      var i :| 0 <= i < |f.prefixes| && f.prefixes[i] == p;
    }
    if i :| 0 <= i < |f.prefixes| && f.prefixes[i] <= t.name { assert f.prefixes[i] in f.prefixes; }
  }

  lemma {:induction false} FamilyForIs(families: seq<NamedFamily>, purpose: string)
    ensures var holds := (n: NamedFamily) => purpose in n.family.handles;
            match FamilyFor(families, purpose)
            case None => forall k :: 0 <= k < |families| ==> !holds(families[k])
            case Some(f) => exists k: nat :: FirstWith(families, holds, k) && families[k].family == f
  {
    if families != [] {
      FamilyForIs(families[1..], purpose);
      FirstShifts(families, (n: NamedFamily) => purpose in n.family.handles);
    }
  }

  lemma {:induction false} FamilyByIdIs(families: seq<NamedFamily>, id: string)
    ensures var holds := (n: NamedFamily) => n.id == id;
            match FamilyById(families, id)
            case None => forall k :: 0 <= k < |families| ==> !holds(families[k])
            case Some(f) => exists k: nat :: FirstWith(families, holds, k) && families[k].family == f
  {
    if families != [] {
      FamilyByIdIs(families[1..], id);
      FirstShifts(families, (n: NamedFamily) => n.id == id);
    }
  }

  lemma FirstShifts(families: seq<NamedFamily>, holds: NamedFamily -> bool)
    requires families != []
    ensures holds(families[0]) ==> FirstWith(families, holds, 0)
    ensures !holds(families[0]) ==> forall k: nat :: FirstWith(families[1..], holds, k) ==> FirstWith(families, holds, k + 1)
  {
    if !holds(families[0]) {
      forall k: nat | FirstWith(families[1..], holds, k) ensures FirstWith(families, holds, k + 1) {
        forall j | 0 <= j < k + 1 ensures !holds(families[j]) {
          if j > 0 { assert families[1..][j - 1] == families[j]; }
        }
      }
    }
  }

  lemma FamilyIs(fs: Families, purpose: string, f: Family)
    ensures FamilyOf(fs, purpose) == Some(f) <==> IsFamilyOf(fs, purpose, f)
  {
    FamilyForIs(fs.families, purpose);
    FamilyByIdIs(fs.families, "general");
  }

  /** The tools that the family stage leaves: those that fit the purpose's family, or all when none does. */
  ghost predicate InFamily(fs: Families, purpose: string, visible: seq<Tool>, t: Tool) {
    t in visible && forall f :: IsFamilyOf(fs, purpose, f) ==> Fits(t, f) || !exists u :: u in visible && Fits(u, f)
  }

  lemma InFamilyIff(fs: Families, purpose: string, visible: seq<Tool>, t: Tool)
    ensures t in FamilyFilter(visible, fs, purpose) <==> InFamily(fs, purpose, visible, t)
  {
    forall f ensures FamilyOf(fs, purpose) == Some(f) <==> IsFamilyOf(fs, purpose, f) { FamilyIs(fs, purpose, f); }
    match FamilyOf(fs, purpose)
    case None =>
    case Some(f) =>
      forall u ensures Matches(u, f) <==> Fits(u, f) { FitsIff(u, f); }
      var narrowed := Filter(visible, (u: Tool) => Matches(u, f));
      assert (exists u :: u in visible && Fits(u, f)) <==> narrowed != [] by {
        if u :| u in visible && Fits(u, f) { assert u in narrowed; }
        if narrowed != [] { assert narrowed[0] in narrowed; }
      }
  }

  /** Exactly which tools are ranked: the family's, without the two older searches if it has the keyed one. */
  lemma NarrowedIff(turn: Turn, fs: Families, visible: seq<Tool>, t: Tool)
    ensures t in Narrow(turn, fs, visible) <==>
      InFamily(fs, turn.purpose, visible, t)
      && ((t.name == "web.search" || t.name == "bundled-search.search.web") ==>
            !exists u :: InFamily(fs, turn.purpose, visible, u) && u.name == "kagi.kagi_search_fetch")
  {
    var family := FamilyFilter(visible, fs, turn.purpose);
    forall u ensures u in family <==> InFamily(fs, turn.purpose, visible, u) { InFamilyIff(fs, turn.purpose, visible, u); }
    HasNameIn(family, KAGI);
    if u :| u in family && u.name == KAGI {
      KagiStays(u);
      assert u in Filter(family, (v: Tool) => !IsLegacySearch(v.name));
    }
  }

  lemma KagiStays(u: Tool)
    requires u.name == KAGI
    ensures !IsLegacySearch(u.name)
  {
    assert u.name[0] == 'k' && LEGACY_SEARCH[0][0] == 'w' && LEGACY_SEARCH[1][0] == 'b';
  }

  // ---------------------------------------------------------------- which way a selection is made

  /** How a selection is made, by its inputs alone; and but for retrieval the whole surface is shown. */
  lemma SelectHow(turn: Turn, fs: Families, cfg: Config, tools: seq<Tool>)
    requires DistinctNames(tools)
    ensures var s, surface := Select(turn, fs, cfg, tools), MailSurface(turn, tools);
            var whole := cfg.mode == "static" || |surface| <= cfg.maxSelected;
            var nobody := cfg.retrievalTopK == 0 && !exists t :: t in surface && Demanded(turn, fs, surface, t);
            && (s.how == NoVisibleTools <==> surface == [])
            && (s.how == FullSurface <==> surface != [] && whole)
            && (s.how == FullSurfaceFallback <==> surface != [] && !whole && (cfg.maxSelected == 0 || nobody))
            && (s.how == FamilyRetrieve <==> surface != [] && !whole && cfg.maxSelected > 0 && !nobody)
            && (s.how != FamilyRetrieve ==> s.selected == surface && s.mandatoryAdded == [] && s.scores == map[])
            && s.visibleCount == |surface|
  {
    var surface := MailSurface(turn, tools);
    MailSurfaceFacts(turn, tools);
    ChosenFacts(turn, fs, cfg, surface);
    ByNameSorted(Chosen(turn, fs, cfg, surface));
    if surface != [] { ChosenIff(turn, fs, cfg, surface); }
  }

  lemma ChosenIff(turn: Turn, fs: Families, cfg: Config, visible: seq<Tool>)
    requires DistinctNames(visible) && visible != []
    ensures Chosen(turn, fs, cfg, visible) != [] <==>
      cfg.maxSelected > 0 && (cfg.retrievalTopK > 0 || exists t :: t in visible && Demanded(turn, fs, visible, t))
  {
    var order := MandatoryOrder(turn, fs, visible);
    OrderFacts(turn, fs, visible);
    PresentSubset(order, visible);
    forall t | t in visible ensures t.name in MandatoryNames(turn, fs, visible) <==> Demanded(turn, fs, visible, t) {
      DemandedIff(turn, fs, visible, t);
    }
    assert Present(order, visible) != [] <==> exists t :: t in visible && Demanded(turn, fs, visible, t) by {
      if Present(order, visible) != [] { assert Present(order, visible)[0] in Present(order, visible); }
    }
    if cfg.maxSelected > 0 && cfg.retrievalTopK > 0 { SomeChosen(turn, fs, cfg, visible); }
  }

  /** The first tool has a higher score, or the same and an earlier name. */
  ghost predicate RanksBefore(turn: Turn, t: Tool, u: Tool) {
    turn.score(t) > turn.score(u) || (turn.score(t) == turn.score(u) && Earlier(t.name, u.name))
  }

  /** These are the best ranked of some tools, as many as may be retrieved, in their order. */
  ghost predicate BestRanked(turn: Turn, best: seq<Tool>, tools: seq<Tool>, topK: nat) {
    && |best| == (if topK < |tools| then topK else |tools|)
    && (forall t :: t in best ==> t in tools)
    && (forall i, j :: 0 <= i < j < |best| ==> RanksBefore(turn, best[i], best[j]))
    && (forall t, u :: t in best && u in tools && u !in best ==> RanksBefore(turn, t, u))
  }

  lemma RankedBest(turn: Turn, tools: seq<Tool>, topK: nat)
    requires DistinctNames(tools)
    ensures BestRanked(turn, Ranked(turn, tools, topK), tools, topK)
  {
    var key, ranked := RankKey(turn), Ranked(turn, tools, topK);
    KeysTellNames(turn);
    SortDistinct(tools, key);
    forall i, j | 0 <= i < j < |ranked| ensures RanksBefore(turn, ranked[i], ranked[j]) { RankIff(turn, ranked[i], ranked[j]); }
    forall t, u | t in ranked && u in tools && u !in ranked ensures RanksBefore(turn, t, u) {
      CutFirst(Sort(tools, key), topK, key, t, u);
      RankIff(turn, t, u);
    }
    forall t | t in ranked ensures t in tools { assert t in Sort(tools, key); }
  }

  /** The candidates that the router model is shown: on the retrieval path the best ranked of the narrowed tools, else
      the whole surface. */
  lemma CandidatesBest(turn: Turn, fs: Families, cfg: Config, tools: seq<Tool>)
    requires DistinctNames(tools)
    ensures var s, surface := Select(turn, fs, cfg, tools), MailSurface(turn, tools);
            if s.how == FamilyRetrieve then BestRanked(turn, s.candidates, Narrow(turn, fs, surface), cfg.retrievalTopK)
            else s.candidates == surface
  {
    MailSurfaceFacts(turn, tools);
    NarrowFacts(turn, fs, MailSurface(turn, tools));
    RankedBest(turn, Narrow(turn, fs, MailSurface(turn, tools)), cfg.retrievalTopK);
  }

  /** The model's reply is used exactly if the mode asks for it, the surface is large enough, and it or the recorded
      tools name some tool of the surface. */
  lemma CuratesExactly(turn: Turn, fs: Families, cfg: Config, tools: seq<Tool>, reply: Option<seq<string>>)
    requires DistinctNames(tools)
    ensures var surface, base := MailSurface(turn, tools), Select(turn, fs, cfg, tools);
            SelectCurated(turn, fs, cfg, tools, reply).how == AiCurated <==>
              cfg.mode == "retrieve+ai" && cfg.aiGate <= |surface| && reply.Some? && reply.value != []
              && exists t :: t in surface && (t.name in reply.value || t.name in base.mandatoryAdded)
  {
    var visible, base := MailSurface(turn, tools), Select(turn, fs, cfg, tools);
    MailSurfaceFacts(turn, tools);
    MailSurfaceIdempotent(turn, tools);
    SameSurfaceSameSelection(turn, fs, cfg, tools);
    VisibleCount(turn, fs, cfg, tools);
    if reply.Some? {
      var m := CuratedMap(base, visible, reply.value);
      CuratedMapFacts(base, visible, reply.value);
      if m != [] { assert m[0] in m; }
    }
  }

  /** Behind its first n tools a selection goes by name, and what the model named is left out only at the cap, for names
      that come earlier. */
  ghost predicate GoesByName(selected: seq<Tool>, n: nat, visible: seq<Tool>, reply: seq<string>, cap: nat) {
    && (forall i, j :: n <= i < j < |selected| ==> Earlier(selected[i].name, selected[j].name))
    && (forall t :: t in visible && t.name in reply && t !in selected ==>
          |selected| == cap && forall i :: n <= i < |selected| ==> Earlier(selected[i].name, t.name))
  }

  /** So does a curated selection behind the recorded tools. */
  lemma CuratedByName(turn: Turn, fs: Families, cfg: Config, tools: seq<Tool>, reply: Option<seq<string>>)
    requires DistinctNames(tools)
    requires SelectCurated(turn, fs, cfg, tools, reply).how == AiCurated
    ensures var s := SelectCurated(turn, fs, cfg, tools, reply);
            GoesByName(s.selected, |s.mandatoryAdded|, MailSurface(turn, tools), reply.value, cfg.maxSelected)
  {
    var visible := MailSurface(turn, tools);
    MailSurfaceFacts(turn, tools);
    MailSurfaceIdempotent(turn, tools);
    var recorded := RecordedTools(turn, fs, cfg, visible);
    CutGoesByName(Select(turn, fs, cfg, visible), recorded, visible, reply.value, cfg.maxSelected);
  }

  /** The same for any base whose recorded names are those of few enough visible tools. */
  lemma CutGoesByName(base: Selection, recorded: seq<Tool>, visible: seq<Tool>, reply: seq<string>, cap: nat)
    requires DistinctNames(visible) && DistinctNames(recorded) && |recorded| <= cap
    requires NamesOf(recorded) == base.mandatoryAdded && forall t :: t in recorded ==> t in visible
    ensures var cut := Take(Sort(CuratedMap(base, visible, reply), PriorityKey(base.mandatoryAdded)), cap);
            GoesByName(cut, |recorded|, visible, reply, cap)
  {
    var m := CuratedMap(base, visible, reply);
    CuratedMapFacts(base, visible, reply);
    forall t | t in recorded ensures t in m { InNames(recorded, t); }
    var rest := Filter(m, (t: Tool) => !HasName(recorded, t.name));
    RestListed(recorded, m, rest);
    CutByName(recorded, Sort(rest, NameKey), cap);
    forall t | t in m ensures t in recorded || t in Sort(rest, NameKey) {
      if HasName(recorded, t.name) { PickedByName(recorded, t, visible); }
    }
  }

  lemma RestListed(recorded: seq<Tool>, m: seq<Tool>, rest: seq<Tool>)
    requires DistinctNames(recorded) && DistinctNames(m) && forall t :: t in recorded ==> t in m
    requires rest == Filter(m, (t: Tool) => !HasName(recorded, t.name))
    ensures Sort(m, PriorityKey(NamesOf(recorded))) == recorded + Sort(rest, NameKey)
    ensures ListedByName(Sort(rest, NameKey)) && forall t :: t in Sort(rest, NameKey) <==> t in rest
  {
    PrioritySorted(recorded, m);
    FilterDistinct(m, (t: Tool) => !HasName(recorded, t.name));
    ByNameSorted(rest);
    ListedIff(Sort(rest, NameKey));
  }

  /** A cut of a head and a tail that goes by name. */
  lemma CutByName(head: seq<Tool>, tail: seq<Tool>, cap: nat)
    requires ListedByName(tail) && |head| <= cap
    ensures var cut := Take(head + tail, cap);
            && (forall i, j :: |head| <= i < j < |cut| ==> Earlier(cut[i].name, cut[j].name))
            && (forall t :: t in head ==> t in cut)
            && (forall t :: t in tail && t !in cut ==>
                  |cut| == cap && forall i :: |head| <= i < |cut| ==> Earlier(cut[i].name, t.name))
  {
    var all, cut := head + tail, Take(head + tail, cap);
    forall t | t in head ensures t in cut {
      var i :| 0 <= i < |head| && head[i] == t;
      assert cut[i] == all[i] == t;
    }
    forall i | |head| <= i < |cut| ensures cut[i] == tail[i - |head|] { assert cut[i] == all[i]; }
    forall t | t in tail && t !in cut
      ensures |cut| == cap && forall i :: |head| <= i < |cut| ==> Earlier(cut[i].name, t.name)
    {
      var j :| 0 <= j < |tail| && tail[j] == t;
      assert all[|head| + j] == t;
      assert forall k | 0 <= k < |cut| :: all[k] == cut[k] && cut[k] in cut;
    }
  }
}
