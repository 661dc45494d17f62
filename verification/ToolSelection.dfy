/** Choosing the tools a turn's planner sees, inside what policy already made visible. */
module ToolSelection {
  import opened Wrappers
  import opened PyStrings
  import opened Sorting

  datatype Tool = Tool(name: string, kind: string, description: string)

  datatype Family = Family(handles: set<string>, kinds: set<string>, prefixes: seq<string>)

  datatype NamedFamily = NamedFamily(id: string, family: Family)

  datatype Families = Families(mandatoryAlways: seq<string>, families: seq<NamedFamily>)

  datatype Config = Config(mode: string, retrievalTopK: nat, aiGate: nat, maxSelected: nat)

  /** What one turn asks: the registry, the session's purpose and mode, what the message patterns
      say of the user's text, and how its words score a tool. */
  datatype Turn = Turn(
    registry: seq<Tool>,
    purpose: string,
    dualLlm: bool,
    demoRequest: bool,
    mailRequest: bool,
    recentSummary: bool,
    webSearch: bool,
    imageGeneration: bool,
    imageFetch: bool,
    wikipedia: bool,
    chart: bool,
    score: Tool -> int
  )

  datatype How = NoVisibleTools | FullSurface | FamilyRetrieve | FullSurfaceFallback | AiCurated | Widened

  datatype Selection = Selection(
    selected: seq<Tool>,
    candidates: seq<Tool>,
    visibleCount: nat,
    how: How,
    mandatoryAdded: seq<string>,
    scores: map<string, int>
  )

  // ---------------------------------------------------------------- lists of tools

  function Chars(s: string): Key { seq(|s|, i requires 0 <= i < |s| => s[i] as int) }

  function NameKey(t: Tool): Key { Chars(t.name) }

  function Filter(ts: seq<Tool>, keep: Tool -> bool): (r: seq<Tool>)
    ensures forall t :: t in r <==> t in ts && keep(t)
    ensures |r| <= |ts|
  {
    if ts == [] then [] else (if keep(ts[0]) then [ts[0]] else []) + Filter(ts[1..], keep)
  }

  predicate HasName(ts: seq<Tool>, name: string) { exists i :: 0 <= i < |ts| && ts[i].name == name }

  /** `{t.name: t for t in ts}.get(name)`, for distinct names. */
  function ByName(ts: seq<Tool>, name: string): (r: Option<Tool>)
    ensures r.Some? <==> HasName(ts, name)
    ensures r.Some? ==> r.value in ts && r.value.name == name
  {
    if ts == [] then None else if ts[0].name == name then Some(ts[0]) else ByName(ts[1..], name)
  }

  function Take<T>(s: seq<T>, n: nat): (r: seq<T>)
    ensures r <= s && |r| == if n < |s| then n else |s|
  {
    if n < |s| then s[..n] else s
  }

  // ---------------------------------------------------------------- filters

  const IMAP_READ: string := "IMAP_READ"
  const SUMMARIZE: string := "quarantined.summarize_mail"
  const KAGI: string := "kagi.kagi_search_fetch"

  predicate IsMailTurn(turn: Turn) { turn.purpose == "inbox" || turn.mailRequest }

  predicate IsRealMail(t: Tool) {
    t.kind == IMAP_READ && !("inbox." <= t.name) && !("email." <= t.name) && !("quarantined." <= t.name)
  }

  /** Some registered tool reads real mail. */
  predicate HasRealMail(turn: Turn) { exists i :: 0 <= i < |turn.registry| && IsRealMail(turn.registry[i]) }

  predicate IsSeededMail(t: Tool) { "inbox." <= t.name || t.name == "quarantined.extract_inbox" }

  predicate IsMailListing(t: Tool) { EndsWith(t.name, ".imap.list_threads") || EndsWith(t.name, ".imap.search") }

  /** `mail_tool_surface`. */
  function MailSurface(turn: Turn, tools: seq<Tool>): seq<Tool> {
    if turn.demoRequest || !IsMailTurn(turn) then tools
    else if !HasRealMail(turn) then tools
    else
      var projected := HasName(tools, SUMMARIZE);
      if projected && turn.recentSummary then Filter(tools, (t: Tool) => t.name == SUMMARIZE)
      else Filter(tools, (t: Tool) => !IsSeededMail(t) && !(projected && IsMailListing(t)))
  }

  function FamilyFor(families: seq<NamedFamily>, purpose: string): Option<Family> {
    if families == [] then None
    else if purpose in families[0].family.handles then Some(families[0].family)
    else FamilyFor(families[1..], purpose)
  }

  function FamilyById(families: seq<NamedFamily>, id: string): Option<Family> {
    if families == [] then None
    else if families[0].id == id then Some(families[0].family)
    else FamilyById(families[1..], id)
  }

  /** `family_for_purpose`. */
  function FamilyOf(fs: Families, purpose: string): Option<Family> {
    if FamilyFor(fs.families, purpose).Some? then FamilyFor(fs.families, purpose) else FamilyById(fs.families, "general")
  }

  /** `tool_matches_family`. */
  predicate Matches(t: Tool, f: Family) {
    if f.kinds != {} && t.kind in f.kinds then true
    else if f.prefixes != [] then exists i :: 0 <= i < |f.prefixes| && f.prefixes[i] <= t.name
    else f.kinds == {}
  }

  function OrElse(narrowed: seq<Tool>, all: seq<Tool>): seq<Tool> { if narrowed == [] then all else narrowed }

  /** `_apply_family_filter`. */
  function FamilyFilter(visible: seq<Tool>, fs: Families, purpose: string): seq<Tool> {
    match FamilyOf(fs, purpose)
    case None => visible
    case Some(f) =>
      if f.kinds == {} && f.prefixes == [] then visible
      else OrElse(Filter(visible, (t: Tool) => Matches(t, f)), visible)
  }

  const LEGACY_SEARCH: seq<string> := ["web.search", "bundled-search.search.web"]

  predicate IsLegacySearch(name: string) { name in LEGACY_SEARCH }

  /** `_prefer_kagi_over_ddg_fallbacks`. */
  function PreferKagi(tools: seq<Tool>): seq<Tool> {
    if !HasName(tools, KAGI) then tools else OrElse(Filter(tools, (t: Tool) => !IsLegacySearch(t.name)), tools)
  }

  function Narrow(turn: Turn, fs: Families, visible: seq<Tool>): seq<Tool> {
    PreferKagi(FamilyFilter(visible, fs, turn.purpose))
  }

  /** `(-score, name)`. */
  function RankKey(turn: Turn): Tool -> Key { (t: Tool) => [-turn.score(t)] + Chars(t.name) }

  /** `_retrieval_rank`. */
  function Ranked(turn: Turn, narrowed: seq<Tool>, topK: nat): seq<Tool> { Take(Sort(narrowed, RankKey(turn)), topK) }

  // ---------------------------------------------------------------- mandatory tools

  function NamesOf(ts: seq<Tool>): (r: seq<string>)
    ensures |r| == |ts| && forall i :: 0 <= i < |r| ==> r[i] == ts[i].name
  {
    seq(|ts|, i requires 0 <= i < |ts| => ts[i].name)
  }

  function FirstPresent(names: seq<string>, visible: seq<Tool>): seq<string> {
    if names == [] then [] else if HasName(visible, names[0]) then [names[0]] else FirstPresent(names[1..], visible)
  }

  const WIKIPEDIA_TOOLS: seq<string> := ["bundled-fetch.wikipedia.lookup", "wikipedia.lookup"]
  const FETCH_TOOLS: seq<string> :=
    ["bundled-image-fetch.image.fetch", "bundled-images.image.fetch", "image.fetch"]
  const GENERATE_TOOLS: seq<string> :=
    ["bundled-image-generate.image.generate", "bundled-images.image.generate", "image.generate"]

  /** The names the turn makes mandatory, present or not; the source collects them in a set. */
  function MandatoryNames(turn: Turn, fs: Families, visible: seq<Tool>): seq<string> {
    fs.mandatoryAlways
    + (if IsMailTurn(turn) then NamesOf(Filter(visible, (t: Tool) => t.kind == IMAP_READ && !("inbox." <= t.name))) else [])
    + (if turn.dualLlm then NamesOf(Filter(visible, (t: Tool) => "quarantined." <= t.name)) else [])
    + (if turn.webSearch && !turn.imageGeneration then
         (if HasName(visible, KAGI) then [KAGI]
          else NamesOf(Filter(visible, (t: Tool) => IsLegacySearch(t.name))))
       else [])
    + (if turn.imageFetch || turn.wikipedia then
         FirstPresent(WIKIPEDIA_TOOLS, visible) + (if turn.imageFetch then FirstPresent(FETCH_TOOLS, visible) else [])
       else if turn.imageGeneration then FirstPresent(GENERATE_TOOLS, visible)
       else [])
    + (if turn.chart && HasName(visible, "chart.plot") then ["chart.plot"] else [])
  }

  /** `(name not in mandatory_always, name)`. */
  function MandatoryKey(fs: Families): string -> Key {
    (n: string) => [if n in fs.mandatoryAlways then 0 else 1] + Chars(n)
  }

  function MandatoryOrder(turn: Turn, fs: Families, visible: seq<Tool>): seq<string> {
    Sort(Unique(MandatoryNames(turn, fs, visible)), MandatoryKey(fs))
  }

  /** The tools of those names that are visible, in the order of the names. */
  function Present(names: seq<string>, visible: seq<Tool>): (r: seq<Tool>)
    ensures |r| <= |names|
  {
    if names == [] then []
    else
      var t := ByName(visible, names[0]);
      (if t.Some? then [t.value] else []) + Present(names[1..], visible)
  }

  // ---------------------------------------------------------------- selection

  /** The tools that the cap lets through: mandatory ones first, then the best ranked others. */
  function Picked(turn: Turn, fs: Families, cfg: Config, visible: seq<Tool>): seq<Tool> {
    Take(Present(MandatoryOrder(turn, fs, visible), visible), cfg.maxSelected)
  }

  function Others(ranked: seq<Tool>, picked: seq<Tool>): seq<Tool> {
    Filter(ranked, (t: Tool) => !HasName(picked, t.name))
  }

  function Chosen(turn: Turn, fs: Families, cfg: Config, visible: seq<Tool>): seq<Tool> {
    var picked := Picked(turn, fs, cfg, visible);
    picked + Take(Others(Ranked(turn, Narrow(turn, fs, visible), cfg.retrievalTopK), picked), cfg.maxSelected - |picked|)
  }

  /** The ranked tools the filling loop looks at before the cap stops it. */
  function Visited(ranked: seq<Tool>, seen: seq<Tool>, room: nat): seq<Tool> {
    if ranked == [] || room == 0 then []
    else if HasName(seen, ranked[0].name) then [ranked[0]] + Visited(ranked[1..], seen, room)
    else [ranked[0]] + Visited(ranked[1..], seen + [ranked[0]], room - 1)
  }

  /** The score of each tool under its name; a later tool of the same name overwrites. */
  function Scored(turn: Turn, ts: seq<Tool>): map<string, int> {
    if ts == [] then map[] else Scored(turn, ts[..|ts| - 1])[ts[|ts| - 1].name := turn.score(ts[|ts| - 1])]
  }

  /** `select_tools_for_turn`. */
  function Select(turn: Turn, fs: Families, cfg: Config, tools: seq<Tool>): Selection {
    var visible := MailSurface(turn, tools);
    if visible == [] then Selection([], [], 0, NoVisibleTools, [], map[])
    else if cfg.mode == "static" || |visible| <= cfg.maxSelected then
      Selection(visible, visible, |visible|, FullSurface, [], map[])
    else
      var selected := Sort(Chosen(turn, fs, cfg, visible), NameKey);
      if selected == [] then Selection(visible, visible, |visible|, FullSurfaceFallback, [], map[])
      else
        var ranked := Ranked(turn, Narrow(turn, fs, visible), cfg.retrievalTopK);
        var picked := Picked(turn, fs, cfg, visible);
        Selection(selected, ranked, |visible|, FamilyRetrieve, NamesOf(picked),
                  Scored(turn, Visited(ranked, picked, cfg.maxSelected - |picked|)))
  }

  /** The two insertion loops; `selectedMap` lists the dictionary's values in insertion order. */
  method SelectToolsForTurn(turn: Turn, fs: Families, cfg: Config, tools: seq<Tool>) returns (r: Selection)
    requires DistinctNames(MailSurface(turn, tools))
    ensures r == Select(turn, fs, cfg, tools)
  {
    var visible := MailSurface(turn, tools);
    if visible == [] {
      return Selection([], [], 0, NoVisibleTools, [], map[]);
    }
    if cfg.mode == "static" || |visible| <= cfg.maxSelected {
      return Selection(visible, visible, |visible|, FullSurface, [], map[]);
    }
    var ranked := Ranked(turn, Narrow(turn, fs, visible), cfg.retrievalTopK);
    var picked := PickMandatory(MandatoryOrder(turn, fs, visible), visible, cfg.maxSelected);
    var selectedMap, scores := PickRanked(turn, ranked, picked, cfg.maxSelected);
    assert selectedMap == Chosen(turn, fs, cfg, visible) by {
      RankedNames(turn, fs, visible, cfg.retrievalTopK);
      FreshIsOthers(ranked, picked);
    }
    var selected := Sort(selectedMap, NameKey);
    if selected == [] {
      return Selection(visible, visible, |visible|, FullSurfaceFallback, [], map[]);
    }
    r := Selection(selected, ranked, |visible|, FamilyRetrieve, NamesOf(picked), scores);
  }

  method PickMandatory(names: seq<string>, visible: seq<Tool>, cap: nat) returns (selectedMap: seq<Tool>)
    ensures selectedMap == Take(Present(names, visible), cap)
  {
    selectedMap := [];
    var k := 0;
    while k < |names| && |selectedMap| < cap
      invariant k <= |names| && |selectedMap| <= cap
      invariant Present(names, visible) == selectedMap + Present(names[k..], visible)
    {
      var tool := ByName(visible, names[k]);
      assert names[k..][1..] == names[k + 1..];
      if tool.Some? {
        selectedMap := selectedMap + [tool.value];
      }
      k := k + 1;
    }
  }

  /** The tools of a list whose names are new, each name once. */
  function Fresh(tools: seq<Tool>, seen: seq<Tool>): seq<Tool> {
    if tools == [] then []
    else if HasName(seen, tools[0].name) then Fresh(tools[1..], seen)
    else [tools[0]] + Fresh(tools[1..], seen + [tools[0]])
  }

  method PickRanked(turn: Turn, ranked: seq<Tool>, picked: seq<Tool>, cap: nat)
    returns (selectedMap: seq<Tool>, scores: map<string, int>)
    requires |picked| <= cap
    ensures selectedMap == picked + Take(Fresh(ranked, picked), cap - |picked|)
    ensures scores == Scored(turn, Visited(ranked, picked, cap - |picked|))
  {
    selectedMap, scores := picked, map[];
    ghost var visited: seq<Tool> := [];
    var k := 0;
    while k < |ranked| && |selectedMap| < cap
      invariant k <= |ranked| && |picked| <= |selectedMap| <= cap
      invariant Filling(ranked, picked, cap, k, selectedMap, visited)
      invariant scores == Scored(turn, visited)
    {
      FillKeeps(ranked, picked, cap, k, selectedMap, visited);
      if !HasName(selectedMap, ranked[k].name) {
        selectedMap := selectedMap + [ranked[k]];
      }
      scores := scores[ranked[k].name := turn.score(ranked[k])];
      ScoredStep(turn, visited, ranked[k]);
      visited := visited + [ranked[k]];
      k := k + 1;
    }
    Filled(ranked, picked, cap, k, selectedMap, visited);
  }

  /** The loop has looked at the first k ranked tools; what it will pick and look at is what is left of the whole. */
  ghost predicate Filling(ranked: seq<Tool>, picked: seq<Tool>, cap: nat, k: nat, selected: seq<Tool>, visited: seq<Tool>)
    requires k <= |ranked| && |picked| <= cap && |selected| <= cap
  {
    && picked + Fresh(ranked, picked) == selected + Fresh(ranked[k..], selected)
    && Visited(ranked, picked, cap - |picked|) == visited + Visited(ranked[k..], selected, cap - |selected|)
  }

  lemma FillKeeps(ranked: seq<Tool>, picked: seq<Tool>, cap: nat, k: nat, selected: seq<Tool>, visited: seq<Tool>)
    requires k < |ranked| && |picked| <= cap && |selected| < cap && Filling(ranked, picked, cap, k, selected, visited)
    ensures Filling(ranked, picked, cap, k + 1,
                    if HasName(selected, ranked[k].name) then selected else selected + [ranked[k]], visited + [ranked[k]])
  {
    var t, rest, room := ranked[k], ranked[k + 1..], cap - |selected|;
    FillStep(ranked, k, selected, room);
    if HasName(selected, t.name) {
      Shift(visited, t, Visited(rest, selected, room));
    } else {
      Shift(selected, t, Fresh(rest, selected + [t]));
      Shift(visited, t, Visited(rest, selected + [t], room - 1));
    }
  }

  lemma Filled(ranked: seq<Tool>, picked: seq<Tool>, cap: nat, k: nat, selected: seq<Tool>, visited: seq<Tool>)
    requires k <= |ranked| && |picked| <= |selected| <= cap && (k == |ranked| || |selected| == cap)
    requires Filling(ranked, picked, cap, k, selected, visited)
    ensures selected == picked + Take(Fresh(ranked, picked), cap - |picked|)
    ensures Visited(ranked, picked, cap - |picked|) == visited
  {
    TakeOf(picked, Fresh(ranked, picked), selected, Fresh(ranked[k..], selected), cap);
    assert visited + [] == visited;
  }

  /** What the filling loop does with ranked tool k. */
  lemma FillStep(ranked: seq<Tool>, k: nat, seen: seq<Tool>, room: nat)
    requires k < |ranked| && room > 0
    ensures Fresh(ranked[k..], seen) ==
      if HasName(seen, ranked[k].name) then Fresh(ranked[k + 1..], seen)
      else [ranked[k]] + Fresh(ranked[k + 1..], seen + [ranked[k]])
    ensures Visited(ranked[k..], seen, room) ==
      [ranked[k]] + if HasName(seen, ranked[k].name) then Visited(ranked[k + 1..], seen, room)
                    else Visited(ranked[k + 1..], seen + [ranked[k]], room - 1)
  {
    assert ranked[k..][0] == ranked[k] && ranked[k..][1..] == ranked[k + 1..];
  }

  lemma Shift(s: seq<Tool>, t: Tool, rest: seq<Tool>)
    ensures s + ([t] + rest) == (s + [t]) + rest
  {
  }

  lemma ScoredStep(turn: Turn, visited: seq<Tool>, t: Tool)
    ensures Scored(turn, visited + [t]) == Scored(turn, visited)[t.name := turn.score(t)]
  {
    assert (visited + [t])[..|visited|] == visited;
  }

  lemma TakeOf<T>(p: seq<T>, f: seq<T>, s: seq<T>, g: seq<T>, cap: nat)
    requires p + f == s + g && |p| <= |s| <= cap && (|s| == cap || g == [])
    ensures s == p + Take(f, cap - |p|)
  {
    assert (p + f)[..|s|] == s;
    assert f[..|s| - |p|] == (p + f)[|p|..|s|];
  }

  // ---------------------------------------------------------------- distinct names

  ghost predicate DistinctNames(ts: seq<Tool>) {
    forall i, j :: 0 <= i < j < |ts| ==> ts[i].name != ts[j].name
  }

  lemma {:induction false} FilterDistinct(ts: seq<Tool>, keep: Tool -> bool)
    requires DistinctNames(ts)
    ensures DistinctNames(Filter(ts, keep))
  {
    if ts != [] {
      FilterDistinct(ts[1..], keep);
      var rest := Filter(ts[1..], keep);
      forall t | t in rest ensures t.name != ts[0].name {
        var k :| 0 <= k < |ts[1..]| && ts[1..][k] == t;
        assert ts[k + 1] == t;
      }
      assert forall k | 0 <= k < |rest| :: rest[k] in rest;
    }
  }

  lemma CharsInjective(s: string, t: string)
    ensures Chars(s) == Chars(t) ==> s == t
  {
    if Chars(s) == Chars(t) {
      assert |s| == |Chars(s)| == |t|;
      forall i | 0 <= i < |s| ensures s[i] == t[i] { assert Chars(s)[i] == Chars(t)[i]; }
    }
  }

  lemma SortDistinct(ts: seq<Tool>, key: Tool -> Key)
    requires DistinctNames(ts)
    requires forall t, u :: key(t) == key(u) ==> t.name == u.name
    ensures StrictlySorted(Sort(ts, key), key) && DistinctNames(Sort(ts, key))
    ensures forall t :: t in Sort(ts, key) <==> t in ts
    ensures |Sort(ts, key)| == |ts|
  {
    SortStrict(ts, key);
    SortPermutes(ts, key);
    var r := Sort(ts, key);
    StrictlySortedIsSorted(r, key);
    forall i, j | 0 <= i < j < |r| ensures r[i].name != r[j].name {
      assert key(r[i]) != key(r[j]);
      if r[i].name == r[j].name {
        SameNameSameTool(ts, r[i], r[j]);
      }
    }
  }

  lemma SameNameSameTool(ts: seq<Tool>, t: Tool, u: Tool)
    requires DistinctNames(ts) && t in ts && u in ts && t.name == u.name
    ensures t == u
  {
  }

  lemma KeysTellNames(turn: Turn)
    ensures forall t, u :: RankKey(turn)(t) == RankKey(turn)(u) ==> t.name == u.name
    ensures forall t: Tool, u: Tool :: NameKey(t) == NameKey(u) ==> t.name == u.name
  {
    forall t: Tool, u: Tool | NameKey(t) == NameKey(u) ensures t.name == u.name { CharsInjective(t.name, u.name); }
    forall t, u | RankKey(turn)(t) == RankKey(turn)(u) ensures t.name == u.name {
      assert RankKey(turn)(t)[1..] == Chars(t.name) && RankKey(turn)(u)[1..] == Chars(u.name);
      CharsInjective(t.name, u.name);
    }
  }

  lemma NarrowFacts(turn: Turn, fs: Families, visible: seq<Tool>)
    ensures forall t :: t in Narrow(turn, fs, visible) ==> t in visible
    ensures DistinctNames(visible) ==> DistinctNames(Narrow(turn, fs, visible))
    ensures visible != [] ==> Narrow(turn, fs, visible) != []
  {
    var family := FamilyFilter(visible, fs, turn.purpose);
    if DistinctNames(visible) {
      var f := FamilyOf(fs, turn.purpose);
      if f.Some? { FilterDistinct(visible, (t: Tool) => Matches(t, f.value)); }
      FilterDistinct(family, (t: Tool) => !IsLegacySearch(t.name));
    }
  }

  lemma RankedNames(turn: Turn, fs: Families, visible: seq<Tool>, topK: nat)
    requires DistinctNames(visible)
    ensures DistinctNames(Ranked(turn, Narrow(turn, fs, visible), topK))
    ensures forall t :: t in Ranked(turn, Narrow(turn, fs, visible), topK) ==> t in visible
  {
    NarrowFacts(turn, fs, visible);
    KeysTellNames(turn);
    SortDistinct(Narrow(turn, fs, visible), RankKey(turn));
  }

  /** With distinct names, new ones are simply those not picked. */
  lemma {:induction false} FreshIsOthers(ranked: seq<Tool>, picked: seq<Tool>)
    requires DistinctNames(ranked)
    ensures Fresh(ranked, picked) == Others(ranked, picked)
  {
    FreshAfter(ranked, picked, []);
    assert picked + [] == picked;
  }

  lemma {:induction false} FreshAfter(ranked: seq<Tool>, picked: seq<Tool>, more: seq<Tool>)
    requires DistinctNames(ranked)
    requires forall i, j :: 0 <= i < |ranked| && 0 <= j < |more| ==> ranked[i].name != more[j].name
    ensures Fresh(ranked, picked + more) == Others(ranked, picked)
    decreases ranked
  {
    if ranked != [] {
      var t := ranked[0];
      assert HasName(picked + more, t.name) <==> HasName(picked, t.name) by { HasNameAppend(picked, more, t.name); }
      if HasName(picked, t.name) {
        FreshAfter(ranked[1..], picked, more);
      } else {
        FreshAfter(ranked[1..], picked, more + [t]);
        assert picked + more + [t] == picked + (more + [t]);
      }
    }
  }

  lemma HasNameAppend(a: seq<Tool>, b: seq<Tool>, name: string)
    ensures HasName(a + b, name) <==> HasName(a, name) || HasName(b, name)
  {
    if i :| 0 <= i < |a| && a[i].name == name { assert (a + b)[i].name == name; }
    if i :| 0 <= i < |b| && b[i].name == name { assert (a + b)[|a| + i].name == name; }
    if i :| 0 <= i < |a + b| && (a + b)[i].name == name {
      if i < |a| { assert a[i].name == name; } else { assert b[i - |a|].name == name; }
    }
  }

  // ---------------------------------------------------------------- model curation

  /** The tools of the reply's names that are visible, and the mandatory ones. */
  function CuratedMap(base: Selection, visible: seq<Tool>, reply: seq<string>): seq<Tool> {
    Fresh(Present(reply, visible) + Present(base.mandatoryAdded, visible), [])
  }

  function IndexOf(names: seq<string>, name: string): (i: nat)
    ensures i <= |names|
    ensures i < |names| ==> names[i] == name
    ensures forall k :: 0 <= k < i ==> names[k] != name
  {
    if names == [] || names[0] == name then 0 else 1 + IndexOf(names[1..], name)
  }

  /** `(priority.get(t.name, len(priority)), t.name)`. */
  function PriorityKey(mandatory: seq<string>): Tool -> Key {
    (t: Tool) => [IndexOf(mandatory, t.name)] + Chars(t.name)
  }

  /** `select_tools_for_turn_async`; the reply is what the router model names, if it answers at all. */
  function SelectCurated(turn: Turn, fs: Families, cfg: Config, tools: seq<Tool>, reply: Option<seq<string>>): Selection {
    var visible := MailSurface(turn, tools);
    var base := Select(turn, fs, cfg, visible);
    if cfg.mode != "retrieve+ai" || base.visibleCount < cfg.aiGate || reply.None? || reply.value == [] then base
    else
      var selectedMap := CuratedMap(base, visible, reply.value);
      if selectedMap == [] then base
      else base.(selected := Take(Sort(selectedMap, PriorityKey(base.mandatoryAdded)), cfg.maxSelected), how := AiCurated)
  }

  // ---------------------------------------------------------------- widening

  /** `widen_tool_surface`; the surface is filtered when the turn is given. */
  function Widen(current: Selection, tools: seq<Tool>, missing: Option<string>, turn: Option<Turn>): Selection {
    var visible := if turn.Some? then MailSurface(turn.value, tools) else tools;
    var expanded := current.selected + Fresh(visible, current.selected);
    var extra :=
      if missing.Some? && missing.value != "" && ByName(visible, missing.value).Some? && !HasName(expanded, missing.value)
      then [ByName(visible, missing.value).value] else [];
    Selection(Sort(expanded + extra, NameKey), visible, |visible|, How.Widened, current.mandatoryAdded, current.scores)
  }

  method AddMissing(selected: seq<Tool>, visible: seq<Tool>) returns (expanded: seq<Tool>)
    ensures expanded == selected + Fresh(visible, selected)
  {
    expanded := selected;
    for k := 0 to |visible|
      invariant selected + Fresh(visible, selected) == expanded + Fresh(visible[k..], expanded)
    {
      assert visible[k..][1..] == visible[k + 1..];
      if !HasName(expanded, visible[k].name) {
        expanded := expanded + [visible[k]];
      }
    }
  }

  method WidenToolSurface(current: Selection, tools: seq<Tool>, missing: Option<string>, turn: Option<Turn>)
    returns (r: Selection)
    ensures r == Widen(current, tools, missing, turn)
  {
    var visible := if turn.Some? then MailSurface(turn.value, tools) else tools;
    var expanded := AddMissing(current.selected, visible);
    var names := expanded;
    if missing.Some? && missing.value != "" {
      var tool := ByName(visible, missing.value);
      if tool.Some? && !HasName(names, missing.value) {
        expanded := expanded + [tool.value];
      }
    }
    assert names + [] == names;
    r := Selection(Sort(expanded, NameKey), visible, |visible|, How.Widened, current.mandatoryAdded, current.scores);
  }
}
