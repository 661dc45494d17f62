/** What every way of choosing tools keeps. */
module ToolSelectionTheorems {
  import opened Wrappers
  import opened PyStrings
  import opened Sorting
  import opened ToolSelection

  // ---------------------------------------------------------------- the mail filter

  lemma MailSurfaceFacts(turn: Turn, tools: seq<Tool>)
    ensures forall t :: t in MailSurface(turn, tools) ==> t in tools
    ensures DistinctNames(tools) ==> DistinctNames(MailSurface(turn, tools))
  {
    if DistinctNames(tools) {
      var projected := HasName(tools, SUMMARIZE);
      FilterDistinct(tools, (t: Tool) => t.name == SUMMARIZE);
      FilterDistinct(tools, (t: Tool) => !IsSeededMail(t) && !(projected && IsMailListing(t)));
    }
  }

  lemma {:induction false} FilterFixes(ts: seq<Tool>, keep: Tool -> bool)
    requires forall t :: t in ts ==> keep(t)
    ensures Filter(ts, keep) == ts
  {
    if ts != [] {
      assert ts[0] in ts;
      FilterFixes(ts[1..], keep);
      assert ts == [ts[0]] + ts[1..];
    }
  }

  lemma HasNameIn(ts: seq<Tool>, name: string)
    ensures HasName(ts, name) <==> exists t :: t in ts && t.name == name
  {
    if i :| 0 <= i < |ts| && ts[i].name == name { assert ts[i] in ts; }
    if t :| t in ts && t.name == name { var i :| 0 <= i < |ts| && ts[i] == t; }
  }

  /** The tool that a mail summary needs is not itself mail that gets filtered. */
  lemma SummarizeKept(t: Tool)
    requires t.name == SUMMARIZE
    ensures !IsSeededMail(t) && !IsMailListing(t)
  {
    assert t.name[0] == 'q' && t.name[12] == 's' && t.name[|t.name| - 1] == 'l';
    NotSeeded(t.name);
    ListingEnds(t.name);
  }

  lemma NotSeeded(name: string)
    requires |name| > 12 && name[0] == 'q' && name[12] == 's'
    ensures !("inbox." <= name) && name != "quarantined.extract_inbox"
  {
  }

  lemma ListingEnds(name: string)
    ensures EndsWith(name, ".imap.list_threads") ==> name[|name| - 1] == 's'
    ensures EndsWith(name, ".imap.search") ==> name[|name| - 1] == 'h'
  {
    EndsWithLast(name, ".imap.list_threads", 's');
    EndsWithLast(name, ".imap.search", 'h');
  }

  lemma EndsWithLast(name: string, suffix: string, c: char)
    requires suffix != "" && suffix[|suffix| - 1] == c
    ensures EndsWith(name, suffix) ==> name[|name| - 1] == c
  {
    if EndsWith(name, suffix) { assert name[|name| - |suffix|..][|suffix| - 1] == c; }
  }

  /** Filtering twice is filtering once. */
  lemma MailSurfaceIdempotent(turn: Turn, tools: seq<Tool>)
    ensures MailSurface(turn, MailSurface(turn, tools)) == MailSurface(turn, tools)
  {
    var once := MailSurface(turn, tools);
    var projected := HasName(tools, SUMMARIZE);
    if !turn.demoRequest && IsMailTurn(turn) && HasRealMail(turn) {
      HasNameIn(tools, SUMMARIZE);
      HasNameIn(once, SUMMARIZE);
      forall t | t in tools && t.name == SUMMARIZE ensures t in once { SummarizeKept(t); }
      if projected && turn.recentSummary {
        FilterFixes(once, (t: Tool) => t.name == SUMMARIZE);
      } else {
        FilterFixes(once, (t: Tool) => !IsSeededMail(t) && !(projected && IsMailListing(t)));
      }
    }
  }

  // ---------------------------------------------------------------- the orders

  /** The names agree up to place k, where the first ends or has the lesser character. */
  ghost predicate EarlierAt(m: string, n: string, k: nat) {
    k <= |m| && k < |n| && m[..k] == n[..k] && (k == |m| || m[k] < n[k])
  }

  /** The first name comes before the second, as Python compares strings. */
  ghost predicate Earlier(m: string, n: string) { exists k: nat :: EarlierAt(m, n, k) }

  lemma CharsAgree(m: string, n: string, k: nat)
    requires k <= |m| && k <= |n|
    ensures Chars(m)[..k] == Chars(n)[..k] <==> m[..k] == n[..k]
  {
    assert Chars(m)[..k] == Chars(m[..k]) && Chars(n)[..k] == Chars(n[..k]);
    CharsInjective(m[..k], n[..k]);
  }

  lemma EarlierIff(m: string, n: string)
    ensures Less(Chars(m), Chars(n)) <==> Earlier(m, n)
  {
    LessIff(Chars(m), Chars(n));
    forall k: nat ensures LesserAt(Chars(m), Chars(n), k) <==> EarlierAt(m, n, k) {
      if k <= |m| && k <= |n| { CharsAgree(m, n, k); }
    }
  }

  /** The rank goes by the score, the highest first, and among equal scores by the name. */
  lemma RankIff(turn: Turn, t: Tool, u: Tool)
    ensures Less(RankKey(turn)(t), RankKey(turn)(u)) <==>
      turn.score(t) > turn.score(u) || (turn.score(t) == turn.score(u) && Earlier(t.name, u.name))
  {
    EarlierIff(t.name, u.name);
    assert RankKey(turn)(t)[1..] == Chars(t.name) && RankKey(turn)(u)[1..] == Chars(u.name);
  }

  ghost predicate ListedByName(ts: seq<Tool>) { forall i, j :: 0 <= i < j < |ts| ==> Earlier(ts[i].name, ts[j].name) }

  lemma ListedIff(ts: seq<Tool>)
    ensures StrictlySorted(ts, NameKey) <==> ListedByName(ts)
  {
    forall i, j | 0 <= i < j < |ts| ensures Less(NameKey(ts[i]), NameKey(ts[j])) <==> Earlier(ts[i].name, ts[j].name) {
      EarlierIff(ts[i].name, ts[j].name);
    }
  }

  // ---------------------------------------------------------------- what is picked

  lemma {:induction false} PresentFacts(names: seq<string>, visible: seq<Tool>)
    requires forall i, j :: 0 <= i < j < |names| ==> names[i] != names[j]
    ensures DistinctNames(Present(names, visible))
    ensures forall t :: t in Present(names, visible) ==> t in visible && t.name in names
  {
    if names != [] {
      PresentFacts(names[1..], visible);
      var rest := Present(names[1..], visible);
      var t := ByName(visible, names[0]);
      if t.Some? {
        forall i | 0 <= i < |rest| ensures rest[i].name != t.value.name {
          assert rest[i] in rest && rest[i].name in names[1..];
          var k :| 0 <= k < |names[1..]| && names[1..][k] == rest[i].name;
          assert names[k + 1] != names[0];
        }
      }
    }
  }

  lemma SortedNames(names: seq<string>, key: string -> Key)
    requires forall i, j :: 0 <= i < j < |names| ==> names[i] != names[j]
    requires forall m, n :: key(m) == key(n) ==> m == n
    ensures forall i, j :: 0 <= i < j < |Sort(names, key)| ==> Sort(names, key)[i] != Sort(names, key)[j]
  {
    SortStrict(names, key);
    var r := Sort(names, key);
    forall i, j | 0 <= i < j < |r| ensures r[i] != r[j] {
      LessIrreflexive(key(r[i]));
    }
  }

  lemma MandatoryKeyInjective(fs: Families)
    ensures forall m, n :: MandatoryKey(fs)(m) == MandatoryKey(fs)(n) ==> m == n
  {
    forall m, n | MandatoryKey(fs)(m) == MandatoryKey(fs)(n) ensures m == n {
      assert MandatoryKey(fs)(m)[1..] == Chars(m) && MandatoryKey(fs)(n)[1..] == Chars(n);
      CharsInjective(m, n);
    }
  }

  lemma TakeDistinct(ts: seq<Tool>, n: nat)
    requires DistinctNames(ts)
    ensures DistinctNames(Take(ts, n))
    ensures forall t :: t in Take(ts, n) ==> t in ts
  {
  }

  lemma PickedFacts(turn: Turn, fs: Families, cfg: Config, visible: seq<Tool>)
    ensures DistinctNames(Picked(turn, fs, cfg, visible))
    ensures forall t :: t in Picked(turn, fs, cfg, visible) ==> t in visible
    ensures |Picked(turn, fs, cfg, visible)| <= cfg.maxSelected
  {
    var names := Unique(MandatoryNames(turn, fs, visible));
    UniqueFacts(MandatoryNames(turn, fs, visible));
    MandatoryKeyInjective(fs);
    SortedNames(names, MandatoryKey(fs));
    PresentFacts(MandatoryOrder(turn, fs, visible), visible);
    TakeDistinct(Present(MandatoryOrder(turn, fs, visible), visible), cfg.maxSelected);
  }

  lemma AppendDistinct(a: seq<Tool>, b: seq<Tool>)
    requires DistinctNames(a) && DistinctNames(b)
    requires forall t :: t in b ==> !HasName(a, t.name)
    ensures DistinctNames(a + b)
  {
    var s := a + b;
    forall i, j | 0 <= i < j < |s| ensures s[i].name != s[j].name {
      if i < |a| && j >= |a| { assert s[j] == b[j - |a|] && b[j - |a|] in b && a[i].name == s[i].name; }
    }
  }

  /** The chosen tools before they are listed by name. */
  lemma ChosenFacts(turn: Turn, fs: Families, cfg: Config, visible: seq<Tool>)
    requires DistinctNames(visible)
    ensures var chosen := Chosen(turn, fs, cfg, visible);
            && DistinctNames(chosen) && |chosen| <= cfg.maxSelected
            && (forall t :: t in chosen ==> t in visible)
  {
    var picked := Picked(turn, fs, cfg, visible);
    var ranked := Ranked(turn, Narrow(turn, fs, visible), cfg.retrievalTopK);
    PickedFacts(turn, fs, cfg, visible);
    RankedNames(turn, fs, visible, cfg.retrievalTopK);
    FilledFacts(ranked, picked, cfg.maxSelected - |picked|, visible);
  }

  lemma SomeChosen(turn: Turn, fs: Families, cfg: Config, visible: seq<Tool>)
    requires visible != [] && cfg.maxSelected >= 1 && cfg.retrievalTopK >= 1
    ensures Chosen(turn, fs, cfg, visible) != []
  {
    SomeRanked(turn, fs, visible, cfg.retrievalTopK);
    SomeOther(Ranked(turn, Narrow(turn, fs, visible), cfg.retrievalTopK), Picked(turn, fs, cfg, visible));
  }

  /** Picked tools, filled up with others. */
  lemma FilledFacts(ranked: seq<Tool>, picked: seq<Tool>, room: nat, visible: seq<Tool>)
    requires DistinctNames(ranked) && DistinctNames(picked)
    requires (forall t :: t in ranked ==> t in visible) && forall t :: t in picked ==> t in visible
    ensures var filled := picked + Take(Others(ranked, picked), room);
            DistinctNames(filled) && forall t :: t in filled ==> t in visible
  {
    FilterDistinct(ranked, (t: Tool) => !HasName(picked, t.name));
    TakeDistinct(Others(ranked, picked), room);
    AppendDistinct(picked, Take(Others(ranked, picked), room));
  }

  lemma SomeRanked(turn: Turn, fs: Families, visible: seq<Tool>, topK: nat)
    requires visible != [] && topK >= 1
    ensures Ranked(turn, Narrow(turn, fs, visible), topK) != []
  {
    var narrowed := Narrow(turn, fs, visible);
    NarrowFacts(turn, fs, visible);
    CutEmptyIff(narrowed, RankKey(turn), topK);
  }

  lemma SomeOther(ranked: seq<Tool>, picked: seq<Tool>)
    requires ranked != []
    ensures picked == [] ==> Others(ranked, picked) != []
  {
    if picked == [] { FilterFixes(ranked, (t: Tool) => !HasName(picked, t.name)); }
  }

  lemma ByNameSorted(ts: seq<Tool>)
    requires DistinctNames(ts)
    ensures StrictlySorted(Sort(ts, NameKey), NameKey) && DistinctNames(Sort(ts, NameKey))
    ensures forall t :: t in Sort(ts, NameKey) <==> t in ts
    ensures |Sort(ts, NameKey)| == |ts|
  {
    forall t: Tool, u: Tool | NameKey(t) == NameKey(u) ensures t.name == u.name { CharsInjective(t.name, u.name); }
    SortDistinct(ts, NameKey);
  }

  /** Everything the planner is shown was visible, each tool once. */
  ghost predicate Inside(s: Selection, visible: seq<Tool>) {
    DistinctNames(s.selected) && forall t :: t in s.selected ==> t in visible
  }

  /** What is selected, whichever way. */
  ghost predicate SelectedFrom(s: Selection, visible: seq<Tool>, chosen: seq<Tool>, picked: seq<Tool>) {
    || (s.selected == visible && s.how != FamilyRetrieve && s.mandatoryAdded == [])
    || (s.selected == Sort(chosen, NameKey) && s.how == FamilyRetrieve && s.mandatoryAdded == NamesOf(picked))
  }

  lemma SelectCases(turn: Turn, fs: Families, cfg: Config, tools: seq<Tool>)
    ensures var visible := MailSurface(turn, tools);
            SelectedFrom(Select(turn, fs, cfg, tools), visible, Chosen(turn, fs, cfg, visible), Picked(turn, fs, cfg, visible))
  {
  }

  lemma SelectedInside(s: Selection, visible: seq<Tool>, chosen: seq<Tool>, picked: seq<Tool>, cap: nat)
    requires SelectedFrom(s, visible, chosen, picked) && DistinctNames(visible) && DistinctNames(chosen)
    requires (forall t :: t in chosen ==> t in visible) && |chosen| <= cap && |picked| <= cap
    ensures Inside(s, visible)
    ensures |s.mandatoryAdded| <= cap && (s.how == FamilyRetrieve ==> |s.selected| <= cap && ListedByName(s.selected))
  {
    ByNameSorted(chosen);
    ListedIff(Sort(chosen, NameKey));
  }

  lemma SelectInside(turn: Turn, fs: Families, cfg: Config, tools: seq<Tool>)
    requires DistinctNames(tools)
    ensures Inside(Select(turn, fs, cfg, tools), tools)
    ensures var s := Select(turn, fs, cfg, tools);
            && |s.mandatoryAdded| <= cfg.maxSelected
            && (s.how == FamilyRetrieve ==> |s.selected| <= cfg.maxSelected && ListedByName(s.selected))
  {
    var visible := MailSurface(turn, tools);
    MailSurfaceFacts(turn, tools);
    PickedFacts(turn, fs, cfg, visible);
    ChosenFacts(turn, fs, cfg, visible);
    SelectCases(turn, fs, cfg, tools);
    SelectedInside(Select(turn, fs, cfg, tools), visible, Chosen(turn, fs, cfg, visible), Picked(turn, fs, cfg, visible),
                   cfg.maxSelected);
  }

  /** The members of a retrieval selection. */
  lemma RetrievalMembers(turn: Turn, fs: Families, cfg: Config, tools: seq<Tool>)
    requires DistinctNames(tools)
    requires Select(turn, fs, cfg, tools).how == FamilyRetrieve
    ensures var s := Select(turn, fs, cfg, tools);
            var visible := MailSurface(turn, tools);
            var picked := Picked(turn, fs, cfg, visible);
            var others := Others(Ranked(turn, Narrow(turn, fs, visible), cfg.retrievalTopK), picked);
            && (forall t :: t in s.selected <==> t in picked || t in Take(others, cfg.maxSelected - |picked|))
            && |s.selected| == |picked| + |Take(others, cfg.maxSelected - |picked|)|
  {
    var visible := MailSurface(turn, tools);
    MailSurfaceFacts(turn, tools);
    ChosenFacts(turn, fs, cfg, visible);
    ByNameSorted(Chosen(turn, fs, cfg, visible));
  }

  /** On the retrieval path the selection is the mandatory prefix and the best of the rest: nobody narrowed but left
      out ranks before somebody let in, and of those retrieved somebody is left out only when the cap is reached. */
  lemma RetrievalSelectsBest(turn: Turn, fs: Families, cfg: Config, tools: seq<Tool>)
    requires DistinctNames(tools)
    requires Select(turn, fs, cfg, tools).how == FamilyRetrieve
    ensures var s := Select(turn, fs, cfg, tools);
            var visible := MailSurface(turn, tools);
            var picked := Picked(turn, fs, cfg, visible);
            var narrowed := Narrow(turn, fs, visible);
            && (forall t :: t in picked ==> t in s.selected)
            && (forall t, u :: t in s.selected && t !in picked && u in narrowed && u !in s.selected ==>
                  turn.score(t) > turn.score(u) || (turn.score(t) == turn.score(u) && Earlier(t.name, u.name)))
            && (|s.selected| == cfg.maxSelected
                || forall u :: u in Ranked(turn, narrowed, cfg.retrievalTopK) ==> u in s.selected)
  {
    var visible := MailSurface(turn, tools);
    var picked := Picked(turn, fs, cfg, visible);
    var narrowed := Narrow(turn, fs, visible);
    var key := RankKey(turn);
    var ranked := Ranked(turn, narrowed, cfg.retrievalTopK);
    var s := Select(turn, fs, cfg, tools);
    MailSurfaceFacts(turn, tools);
    RetrievalMembers(turn, fs, cfg, tools);
    PickedFacts(turn, fs, cfg, visible);
    NarrowFacts(turn, fs, visible);
    forall t, u | t in s.selected && t !in picked && u in narrowed && u !in s.selected
      ensures turn.score(t) > turn.score(u) || (turn.score(t) == turn.score(u) && Earlier(t.name, u.name))
    {
      KeysTellNames(turn);
      SortDistinct(narrowed, key);
      RankIff(turn, t, u);
      BestFirst(narrowed, cfg.retrievalTopK, picked, cfg.maxSelected - |picked|, key, t, u, visible);
    }
    if |s.selected| < cfg.maxSelected {
      RankedNames(turn, fs, visible, cfg.retrievalTopK);
      forall u | u in ranked ensures u in s.selected {
        if HasName(picked, u.name) { PickedByName(picked, u, visible); }
      }
    }
  }

  /** A visible tool that shares its name with a picked one is that one. */
  lemma PickedByName(picked: seq<Tool>, u: Tool, visible: seq<Tool>)
    requires DistinctNames(visible) && u in visible && HasName(picked, u.name)
    requires forall t :: t in picked ==> t in visible
    ensures u in picked
  {
    var i :| 0 <= i < |picked| && picked[i].name == u.name;
    assert picked[i] in picked;
    SameNameSameTool(visible, picked[i], u);
  }

  lemma BestFirst(narrowed: seq<Tool>, topK: nat, picked: seq<Tool>, room: nat, key: Tool -> Key, t: Tool, u: Tool,
                  visible: seq<Tool>)
    requires StrictlySorted(Sort(narrowed, key), key)
    requires forall x :: x in Sort(narrowed, key) <==> x in narrowed
    requires DistinctNames(visible) && (forall x :: x in narrowed ==> x in visible) && forall x :: x in picked ==> x in visible
    requires u in narrowed && u !in picked
    requires var others := Others(Take(Sort(narrowed, key), topK), picked);
             t in Take(others, room) && u !in Take(others, room)
    ensures Less(key(t), key(u))
  {
    var sorted := Sort(narrowed, key);
    var ranked := Take(sorted, topK);
    var others := Others(ranked, picked);
    assert t in others && t in ranked;
    if u in ranked {
      if HasName(picked, u.name) { PickedByName(picked, u, visible); }
      assert u in others;
      FilterOrdered(ranked, (x: Tool) => !HasName(picked, x.name), key);
      CutFirst(others, room, key, t, u);
    } else {
      CutFirst(sorted, topK, key, t, u);
    }
  }

  /** What a cut of a sorted list keeps comes before what it drops. */
  lemma CutFirst(sorted: seq<Tool>, n: nat, key: Tool -> Key, t: Tool, u: Tool)
    requires StrictlySorted(sorted, key)
    requires t in Take(sorted, n) && u in sorted && u !in Take(sorted, n)
    ensures Less(key(t), key(u))
  {
    var cut := Take(sorted, n);
    var i :| 0 <= i < |cut| && cut[i] == t;
    var j :| 0 <= j < |sorted| && sorted[j] == u;
    assert j >= |cut| && sorted[i] == t;
  }

  lemma {:induction false} FilterOrdered(ts: seq<Tool>, keep: Tool -> bool, key: Tool -> Key)
    requires StrictlySorted(ts, key)
    ensures StrictlySorted(Filter(ts, keep), key)
  {
    if ts != [] {
      FilterOrdered(ts[1..], keep, key);
      var r, rest := Filter(ts, keep), Filter(ts[1..], keep);
      if keep(ts[0]) {
        forall i, j | 0 <= i < j < |r| ensures Less(key(r[i]), key(r[j])) {
          if i == 0 {
            assert r[j] == rest[j - 1] && r[j] in rest;
            var k :| 0 <= k < |ts[1..]| && ts[1..][k] == r[j];
            assert Less(key(ts[0]), key(ts[k + 1]));
          } else {
            assert r[i] == rest[i - 1] && r[j] == rest[j - 1];
          }
        }
      }
    }
  }

  /** A selector never turns a surface that has tools into one that has none; and with both limits
      at least one it never has to fall back on the full surface. */
  lemma SelectionNonEmpty(turn: Turn, fs: Families, cfg: Config, tools: seq<Tool>)
    requires DistinctNames(tools)
    ensures Select(turn, fs, cfg, tools).selected == [] <==> MailSurface(turn, tools) == []
    ensures cfg.maxSelected >= 1 && cfg.retrievalTopK >= 1 ==> Select(turn, fs, cfg, tools).how != FullSurfaceFallback
  {
    MailSurfaceFacts(turn, tools);
    ChosenFacts(turn, fs, cfg, MailSurface(turn, tools));
    if MailSurface(turn, tools) != [] && cfg.maxSelected >= 1 && cfg.retrievalTopK >= 1 {
      SomeChosen(turn, fs, cfg, MailSurface(turn, tools));
    }
    ByNameSorted(Chosen(turn, fs, cfg, MailSurface(turn, tools)));
  }

  // ---------------------------------------------------------------- model curation

  lemma {:induction false} FreshFacts(tools: seq<Tool>, seen: seq<Tool>)
    ensures DistinctNames(Fresh(tools, seen))
    ensures forall t :: t in Fresh(tools, seen) ==> t in tools && !HasName(seen, t.name)
    ensures forall t :: t in tools ==> HasName(seen, t.name) || HasName(Fresh(tools, seen), t.name)
  {
    if tools != [] {
      if HasName(seen, tools[0].name) {
        FreshFacts(tools[1..], seen);
      } else {
        FreshFacts(tools[1..], seen + [tools[0]]);
        FreshHead(tools, Fresh(tools[1..], seen + [tools[0]]), seen);
        assert Fresh(tools, seen) == [tools[0]] + Fresh(tools[1..], seen + [tools[0]]);
      }
    }
  }

  /** A new head in front of tools whose names are newer still. */
  lemma FreshHead(tools: seq<Tool>, rest: seq<Tool>, seen: seq<Tool>)
    requires tools != [] && !HasName(seen, tools[0].name)
    requires DistinctNames(rest)
    requires forall t :: t in rest ==> t in tools[1..] && !HasName(seen + [tools[0]], t.name)
    requires forall t :: t in tools[1..] ==> HasName(seen + [tools[0]], t.name) || HasName(rest, t.name)
    ensures DistinctNames([tools[0]] + rest)
    ensures forall t :: t in [tools[0]] + rest ==> t in tools && !HasName(seen, t.name)
    ensures forall t :: t in tools ==> HasName(seen, t.name) || HasName([tools[0]] + rest, t.name)
  {
    var head := [tools[0]];
    forall t | t in rest ensures !HasName(seen, t.name) && !HasName(head, t.name) {
      HasNameAppend(seen, head, t.name);
    }
    AppendDistinct(head, rest);
    forall t | t in tools ensures HasName(seen, t.name) || HasName(head + rest, t.name) {
      HasNameAppend(head, rest, t.name);
      HasNameAppend(seen, head, t.name);
      if t == tools[0] { assert head[0].name == t.name; } else { assert t in tools[1..]; }
    }
  }

  lemma {:induction false} PresentSubset(names: seq<string>, visible: seq<Tool>)
    ensures forall t :: t in Present(names, visible) ==> t in visible && t.name in names
    ensures forall t :: t in visible && t.name in names ==> HasName(Present(names, visible), t.name)
  {
    if names != [] {
      PresentSubset(names[1..], visible);
      var here := ByName(visible, names[0]);
      var head := if here.Some? then [here.value] else [];
      forall t | t in visible && t.name in names ensures HasName(Present(names, visible), t.name) {
        HasNameIn(visible, t.name);
        HasNameAppend(head, Present(names[1..], visible), t.name);
        if t.name == names[0] { assert head[0].name == t.name; }
      }
    }
  }

  /** The names the deterministic pass records are those of visible tools, in the order it took them. */
  lemma RecordedTools(turn: Turn, fs: Families, cfg: Config, tools: seq<Tool>) returns (recorded: seq<Tool>)
    requires DistinctNames(tools)
    ensures NamesOf(recorded) == Select(turn, fs, cfg, tools).mandatoryAdded
    ensures DistinctNames(recorded) && |recorded| <= cfg.maxSelected
    ensures forall t :: t in recorded ==> t in MailSurface(turn, tools)
  {
    var visible := MailSurface(turn, tools);
    if Select(turn, fs, cfg, tools).how == FamilyRetrieve {
      recorded := Picked(turn, fs, cfg, visible);
      PickedFacts(turn, fs, cfg, visible);
    } else {
      recorded := [];
    }
  }

  lemma PriorityLess(mandatory: seq<string>, t: Tool, u: Tool)
    ensures IndexOf(mandatory, t.name) < IndexOf(mandatory, u.name) ==>
      Less(PriorityKey(mandatory)(t), PriorityKey(mandatory)(u))
    ensures IndexOf(mandatory, t.name) == IndexOf(mandatory, u.name) && Less(NameKey(t), NameKey(u)) ==>
      Less(PriorityKey(mandatory)(t), PriorityKey(mandatory)(u))
  {
    assert PriorityKey(mandatory)(t)[1..] == Chars(t.name) && PriorityKey(mandatory)(u)[1..] == Chars(u.name);
  }

  lemma IndexOfIs(names: seq<string>, i: nat)
    requires i < |names| && forall k :: 0 <= k < i ==> names[k] != names[i]
    ensures IndexOf(names, names[i]) == i
  {
  }

  lemma IndexOfMissing(names: seq<string>, name: string)
    requires name !in names
    ensures IndexOf(names, name) == |names|
  {
  }

  lemma PriorityKeysTell(mandatory: seq<string>)
    ensures forall t, u :: PriorityKey(mandatory)(t) == PriorityKey(mandatory)(u) ==> t.name == u.name
  {
    forall t, u | PriorityKey(mandatory)(t) == PriorityKey(mandatory)(u) ensures t.name == u.name {
      assert PriorityKey(mandatory)(t)[1..] == Chars(t.name) && PriorityKey(mandatory)(u)[1..] == Chars(u.name);
      CharsInjective(t.name, u.name);
    }
  }

  /** Recorded tools first, in their own order, then the others by name: that is sorted by priority. */
  lemma PriorityListing(recorded: seq<Tool>, others: seq<Tool>)
    requires DistinctNames(recorded) && StrictlySorted(others, NameKey)
    requires forall t :: t in others ==> !HasName(recorded, t.name)
    ensures StrictlySorted(recorded + others, PriorityKey(NamesOf(recorded)))
  {
    var names, s, n := NamesOf(recorded), recorded + others, |recorded|;
    forall i | 0 <= i < |s| ensures IndexOf(names, s[i].name) == if i < n then i else n {
      if i < n {
        IndexOfIs(names, i);
      } else {
        assert s[i] == others[i - n] && s[i] in others;
        assert forall k | 0 <= k < n :: recorded[k].name != s[i].name;
        IndexOfMissing(names, s[i].name);
      }
    }
    forall i, j | 0 <= i < j < |s| ensures Less(PriorityKey(names)(s[i]), PriorityKey(names)(s[j])) {
      PriorityLess(names, s[i], s[j]);
      if i >= n { assert Less(NameKey(others[i - n]), NameKey(others[j - n])); }
    }
  }

  /** Sorting by priority lists the recorded tools first and the others by name. */
  lemma PrioritySorted(recorded: seq<Tool>, map_: seq<Tool>)
    requires DistinctNames(recorded) && DistinctNames(map_)
    requires forall t :: t in recorded ==> t in map_
    ensures Sort(map_, PriorityKey(NamesOf(recorded))) ==
      recorded + Sort(Filter(map_, (t: Tool) => !HasName(recorded, t.name)), NameKey)
  {
    var key := PriorityKey(NamesOf(recorded));
    var rest := Filter(map_, (t: Tool) => !HasName(recorded, t.name));
    var listing := recorded + Sort(rest, NameKey);
    FilterDistinct(map_, (t: Tool) => !HasName(recorded, t.name));
    ByNameSorted(rest);
    PriorityListing(recorded, Sort(rest, NameKey));
    PriorityKeysTell(NamesOf(recorded));
    SortDistinct(map_, key);
    forall t ensures t in Sort(map_, key) <==> t in listing {
      if t in map_ && HasName(recorded, t.name) {
        var i :| 0 <= i < |recorded| && recorded[i].name == t.name;
        assert recorded[i] in recorded;
        SameNameSameTool(map_, recorded[i], t);
      }
    }
    StrictlySortedUnique(Sort(map_, key), listing, key);
  }

  lemma CuratedMapFacts(base: Selection, visible: seq<Tool>, reply: seq<string>)
    requires DistinctNames(visible)
    ensures DistinctNames(CuratedMap(base, visible, reply))
    ensures forall t :: t in CuratedMap(base, visible, reply) ==> t in visible && (t.name in reply || t.name in base.mandatoryAdded)
    ensures forall t :: t in visible && (t.name in reply || t.name in base.mandatoryAdded) ==> t in CuratedMap(base, visible, reply)
  {
    var a, b := Present(reply, visible), Present(base.mandatoryAdded, visible);
    PresentSubset(reply, visible);
    PresentSubset(base.mandatoryAdded, visible);
    FreshFacts(a + b, []);
    var m := CuratedMap(base, visible, reply);
    forall t | t in visible && (t.name in reply || t.name in base.mandatoryAdded) ensures t in m {
      HasNameAppend(a, b, t.name);
      HasNameIn(a + b, t.name);
      HasNameIn(m, t.name);
      var u :| u in m && u.name == t.name;
      assert u in a + b && u in visible;
      SameNameSameTool(visible, t, u);
    }
  }

  /** What the model may do to the selection, whatever it replies: it adds tools that are visible and drops tools that
      are not mandatory. The recorded tools come first, all of them, and the cap holds. */
  lemma CurationKeepsMandatory(turn: Turn, fs: Families, cfg: Config, tools: seq<Tool>, reply: Option<seq<string>>)
    requires DistinctNames(tools)
    requires SelectCurated(turn, fs, cfg, tools, reply).how == AiCurated
    ensures var s := SelectCurated(turn, fs, cfg, tools, reply);
            var visible := MailSurface(turn, tools);
            && |s.selected| <= cfg.maxSelected
            && s.mandatoryAdded == Select(turn, fs, cfg, tools).mandatoryAdded
            && s.mandatoryAdded <= NamesOf(s.selected)
            && Inside(s, visible)
            && (forall t :: t in s.selected ==> t.name in s.mandatoryAdded || (reply.Some? && t.name in reply.value))
  {
    var visible := MailSurface(turn, tools);
    var base := Select(turn, fs, cfg, visible);
    MailSurfaceFacts(turn, tools);
    MailSurfaceIdempotent(turn, tools);
    SameSurfaceSameSelection(turn, fs, cfg, tools);
    var recorded := RecordedTools(turn, fs, cfg, visible);
    CuratedCut(base, recorded, visible, reply.value, cfg.maxSelected);
  }

  /** The cut of the curated map, for any base whose recorded names are those of few enough visible tools. */
  lemma CuratedCut(base: Selection, recorded: seq<Tool>, visible: seq<Tool>, reply: seq<string>, cap: nat)
    requires DistinctNames(visible) && DistinctNames(recorded) && |recorded| <= cap
    requires NamesOf(recorded) == base.mandatoryAdded && forall t :: t in recorded ==> t in visible
    ensures var cut := Take(Sort(CuratedMap(base, visible, reply), PriorityKey(base.mandatoryAdded)), cap);
            && base.mandatoryAdded <= NamesOf(cut)
            && DistinctNames(cut)
            && forall t :: t in cut ==> t in visible && (t.name in base.mandatoryAdded || t.name in reply)
  {
    var m := CuratedMap(base, visible, reply);
    CuratedMapFacts(base, visible, reply);
    forall t | t in recorded ensures t in m {
      var i :| 0 <= i < |recorded| && recorded[i] == t;
      assert NamesOf(recorded)[i] == t.name;
    }
    PrioritySorted(recorded, m);
    PriorityKeysTell(NamesOf(recorded));
    SortDistinct(m, PriorityKey(NamesOf(recorded)));
    TakeDistinct(Sort(m, PriorityKey(NamesOf(recorded))), cap);
    CutKeepsPrefix(recorded, Sort(m, PriorityKey(NamesOf(recorded))), cap);
  }

  lemma CutKeepsPrefix(recorded: seq<Tool>, sorted: seq<Tool>, cap: nat)
    requires recorded <= sorted && |recorded| <= cap
    ensures NamesOf(recorded) <= NamesOf(Take(sorted, cap))
  {
    var cut := Take(sorted, cap);
    forall i | 0 <= i < |recorded| ensures NamesOf(cut)[i] == NamesOf(recorded)[i] {
      assert cut[i] == sorted[i] == recorded[i];
    }
  }

  lemma SameSurfaceSameSelection(turn: Turn, fs: Families, cfg: Config, tools: seq<Tool>)
    ensures Select(turn, fs, cfg, MailSurface(turn, tools)) == Select(turn, fs, cfg, tools)
  {
    MailSurfaceIdempotent(turn, tools);
    SelectSees(turn, fs, cfg, MailSurface(turn, tools), tools);
  }

  /** A selection sees only what the mail filter leaves. */
  lemma SelectSees(turn: Turn, fs: Families, cfg: Config, t: seq<Tool>, u: seq<Tool>)
    requires MailSurface(turn, t) == MailSurface(turn, u)
    ensures Select(turn, fs, cfg, t) == Select(turn, fs, cfg, u)
  {
  }

  /** Without curation the asynchronous path is the synchronous one. */
  lemma UncuratedSame(turn: Turn, fs: Families, cfg: Config, tools: seq<Tool>, reply: Option<seq<string>>)
    ensures SelectCurated(turn, fs, cfg, tools, reply).how != AiCurated ==>
      SelectCurated(turn, fs, cfg, tools, reply) == Select(turn, fs, cfg, tools)
  {
    SameSurfaceSameSelection(turn, fs, cfg, tools);
  }

  /** The model is asked for its choice and names some tool it may have. */
  predicate ModelChooses(cfg: Config, visible: seq<Tool>, reply: Option<seq<string>>) {
    && cfg.mode == "retrieve+ai" && cfg.aiGate <= |visible| && reply.Some?
    && exists i :: 0 <= i < |visible| && visible[i].name in reply.value
  }

  lemma VisibleCount(turn: Turn, fs: Families, cfg: Config, tools: seq<Tool>)
    ensures Select(turn, fs, cfg, tools).visibleCount == |MailSurface(turn, tools)|
    ensures cfg.maxSelected == 0 ==> Select(turn, fs, cfg, tools).mandatoryAdded == []
  {
  }

  /** With a cap of zero the model curates exactly when it is asked and names a visible tool. */
  lemma CuratesIff(turn: Turn, fs: Families, cfg: Config, tools: seq<Tool>, reply: Option<seq<string>>)
    requires DistinctNames(tools) && cfg.maxSelected == 0
    ensures SelectCurated(turn, fs, cfg, tools, reply).how == AiCurated
      <==> ModelChooses(cfg, MailSurface(turn, tools), reply)
  {
    var visible := MailSurface(turn, tools);
    var base := Select(turn, fs, cfg, visible);
    MailSurfaceFacts(turn, tools);
    MailSurfaceIdempotent(turn, tools);
    VisibleCount(turn, fs, cfg, visible);
    if reply.Some? {
      CuratedMapFacts(base, visible, reply.value);
      var m := CuratedMap(base, visible, reply.value);
      if m != [] {
        assert m[0] in m && m[0] in visible;
      }
      if i :| 0 <= i < |visible| && visible[i].name in reply.value {
        assert visible[i] in m;
      }
    }
  }

  /** What a curated selection is cut from. */
  lemma CuratedIs(turn: Turn, fs: Families, cfg: Config, tools: seq<Tool>, reply: Option<seq<string>>)
    returns (base: Selection)
    requires SelectCurated(turn, fs, cfg, tools, reply).how == AiCurated
    ensures reply.Some? && CuratedMap(base, MailSurface(turn, tools), reply.value) != []
    ensures SelectCurated(turn, fs, cfg, tools, reply).selected ==
      Take(Sort(CuratedMap(base, MailSurface(turn, tools), reply.value), PriorityKey(base.mandatoryAdded)), cfg.maxSelected)
  {
    base := Select(turn, fs, cfg, MailSurface(turn, tools));
  }

  lemma CutEmptyIff(m: seq<Tool>, key: Tool -> Key, cap: nat)
    requires m != []
    ensures Take(Sort(m, key), cap) == [] <==> cap == 0
  {
    SortPermutes(m, key);
    assert |multiset(Sort(m, key))| == |multiset(m)|;
  }

  /** A curated selection under a cap that lets anything through has something, and its surface had too. */
  lemma CuratedNonEmpty(turn: Turn, fs: Families, cfg: Config, tools: seq<Tool>, reply: Option<seq<string>>)
    requires SelectCurated(turn, fs, cfg, tools, reply).how == AiCurated
    ensures SelectCurated(turn, fs, cfg, tools, reply).selected == [] <==> cfg.maxSelected == 0
    ensures MailSurface(turn, tools) != []
  {
    var base := CuratedIs(turn, fs, cfg, tools, reply);
    var visible := MailSurface(turn, tools);
    CutEmptyIff(CuratedMap(base, visible, reply.value), PriorityKey(base.mandatoryAdded), cfg.maxSelected);
    CuratedFromVisible(base, visible, reply.value);
  }

  /** The promise that tools never vanish silently does not reach the curated path: a cap of zero empties it as soon
      as the model is asked and names a visible tool. Otherwise it is empty exactly when the surface is. */
  lemma CuratedEmptyIff(turn: Turn, fs: Families, cfg: Config, tools: seq<Tool>, reply: Option<seq<string>>)
    requires DistinctNames(tools)
    ensures SelectCurated(turn, fs, cfg, tools, reply).selected == [] <==>
      MailSurface(turn, tools) == [] || (cfg.maxSelected == 0 && ModelChooses(cfg, MailSurface(turn, tools), reply))
  {
    MailSurfaceFacts(turn, tools);
    SelectionNonEmpty(turn, fs, cfg, tools);
    UncuratedSame(turn, fs, cfg, tools, reply);
    if cfg.maxSelected == 0 { CuratesIff(turn, fs, cfg, tools, reply); }
    if SelectCurated(turn, fs, cfg, tools, reply).how == AiCurated {
      CuratedNonEmpty(turn, fs, cfg, tools, reply);
    }
  }

  lemma CuratedFromVisible(base: Selection, visible: seq<Tool>, reply: seq<string>)
    requires CuratedMap(base, visible, reply) != []
    ensures visible != []
  {
    PresentSubset(reply, visible);
    PresentSubset(base.mandatoryAdded, visible);
    FreshFacts(Present(reply, visible) + Present(base.mandatoryAdded, visible), []);
    var m := CuratedMap(base, visible, reply);
    assert m[0] in m;
  }

  /** One visible tool, a cap of zero, and a model that names it: the planner sees nothing. */
  lemma CuratedEmptyExample(turn: Turn, fs: Families, cfg: Config, t: Tool)
    requires turn.demoRequest && cfg.mode == "retrieve+ai" && cfg.aiGate <= 1 && cfg.maxSelected == 0
    ensures SelectCurated(turn, fs, cfg, [t], Some([t.name])).selected == []
    ensures SelectCurated(turn, fs, cfg, [t], None).selected != []
  {
    assert [t][0].name in [t.name];
    CuratedEmptyIff(turn, fs, cfg, [t], Some([t.name]));
    CuratedEmptyIff(turn, fs, cfg, [t], None);
  }

  // ---------------------------------------------------------------- widening

  /** The name the model asked for never changes what widening gives. */
  lemma MissingNameIrrelevant(current: Selection, tools: seq<Tool>, missing: Option<string>, turn: Option<Turn>)
    ensures Widen(current, tools, missing, turn) == Widen(current, tools, None, turn)
  {
    var visible := if turn.Some? then MailSurface(turn.value, tools) else tools;
    var added := Fresh(visible, current.selected);
    var expanded := current.selected + added;
    assert expanded + [] == expanded;
    if missing.Some? && ByName(visible, missing.value).Some? {
      FreshFacts(visible, current.selected);
      HasNameAppend(current.selected, added, missing.value);
    }
  }

  lemma WidenInside(current: Selection, tools: seq<Tool>, missing: Option<string>, turn: Option<Turn>)
    requires DistinctNames(tools) && Inside(current, tools)
    ensures Inside(Widen(current, tools, missing, turn), tools)
  {
    MissingNameIrrelevant(current, tools, missing, turn);
    var visible := if turn.Some? then MailSurface(turn.value, tools) else tools;
    if turn.Some? { MailSurfaceFacts(turn.value, tools); }
    FreshFacts(visible, current.selected);
    var expanded := current.selected + Fresh(visible, current.selected);
    AppendDistinct(current.selected, Fresh(visible, current.selected));
    assert expanded + [] == expanded;
    ByNameSorted(expanded);
  }

  /** The list that a widening draws from. */
  function Offered(tools: seq<Tool>, turn: Option<Turn>): seq<Tool> {
    if turn.Some? then MailSurface(turn.value, tools) else tools
  }

  lemma OfferedFacts(tools: seq<Tool>, turn: Option<Turn>)
    requires DistinctNames(tools)
    ensures DistinctNames(Offered(tools, turn)) && forall t :: t in Offered(tools, turn) ==> t in tools
  {
    if turn.Some? { MailSurfaceFacts(turn.value, tools); }
  }

  lemma WidenedIs(current: Selection, tools: seq<Tool>, missing: Option<string>, turn: Option<Turn>)
    ensures Widen(current, tools, missing, turn).selected ==
      Sort(current.selected + Fresh(Offered(tools, turn), current.selected), NameKey)
    ensures var w, offered := Widen(current, tools, missing, turn), Offered(tools, turn);
            w.candidates == offered && w.visibleCount == |offered| && w.how == How.Widened
            && w.mandatoryAdded == current.mandatoryAdded && w.scores == current.scores
  {
    MissingNameIrrelevant(current, tools, missing, turn);
    var expanded := current.selected + Fresh(Offered(tools, turn), current.selected);
    assert expanded + [] == expanded;
  }

  /** One widening, from any surface that holds visible tools only, reaches the whole offered list and keeps what was
      there; another changes nothing. */
  lemma WidenReachesAll(current: Selection, tools: seq<Tool>, missing: Option<string>, again: Option<string>, turn: Option<Turn>)
    requires DistinctNames(tools) && Inside(current, tools)
    ensures var once := Widen(current, tools, missing, turn);
            && (forall t :: t in once.selected <==> t in current.selected || t in Offered(tools, turn))
            && ListedByName(once.selected)
            && Widen(once, tools, again, turn) == once
  {
    var once := Widen(current, tools, missing, turn);
    OfferedFacts(tools, turn);
    WidenedIs(current, tools, missing, turn);
    WidenedIs(once, tools, again, turn);
    WidenedHolds(current.selected, Offered(tools, turn), tools);
    ListedIff(once.selected);
    WidenedAgain(Offered(tools, turn), once.selected);
  }

  lemma WidenedAgain(offered: seq<Tool>, selected: seq<Tool>)
    requires StrictlySorted(selected, NameKey) && forall t :: t in offered ==> t in selected
    ensures Sort(selected + Fresh(offered, selected), NameKey) == selected
  {
    NothingFresh(offered, selected);
    assert selected + [] == selected;
    StrictlySortedIsSorted(selected, NameKey);
    SortIdentity(selected, NameKey);
  }

  /** Inside the offered list a widening gives exactly that list, by name. */
  lemma WidenGivesAll(current: Selection, tools: seq<Tool>, missing: Option<string>, turn: Option<Turn>)
    requires DistinctNames(tools) && Inside(current, Offered(tools, turn))
    ensures Widen(current, tools, missing, turn).selected == Sort(Offered(tools, turn), NameKey)
  {
    OfferedFacts(tools, turn);
    WidenedIs(current, tools, missing, turn);
    ReachesAll(current.selected, Offered(tools, turn));
  }

  lemma WidenedHolds(selected: seq<Tool>, offered: seq<Tool>, tools: seq<Tool>)
    requires DistinctNames(tools) && DistinctNames(selected) && DistinctNames(offered)
    requires (forall t :: t in selected ==> t in tools) && forall t :: t in offered ==> t in tools
    ensures var w := Sort(selected + Fresh(offered, selected), NameKey);
            StrictlySorted(w, NameKey) && forall t :: t in w <==> t in selected || t in offered
  {
    var added := Fresh(offered, selected);
    var expanded := selected + added;
    FreshFacts(offered, selected);
    AppendDistinct(selected, added);
    forall t | t in offered ensures t in expanded {
      HasNameAppend(selected, added, t.name);
      HasNameIn(expanded, t.name);
      var u :| u in expanded && u.name == t.name;
      SameNameSameTool(tools, t, u);
    }
    ByNameSorted(expanded);
  }

  lemma {:induction false} NothingFresh(offered: seq<Tool>, selected: seq<Tool>)
    requires forall t :: t in offered ==> t in selected
    ensures Fresh(offered, selected) == []
  {
    if offered != [] {
      assert offered[0] in selected;
      HasNameIn(selected, offered[0].name);
      NothingFresh(offered[1..], selected);
    }
  }

  lemma ReachesAll(selected: seq<Tool>, visible: seq<Tool>)
    requires DistinctNames(visible) && DistinctNames(selected)
    requires forall t :: t in selected ==> t in visible
    ensures Sort(selected + Fresh(visible, selected), NameKey) == Sort(visible, NameKey)
  {
    var added := Fresh(visible, selected);
    var expanded := selected + added;
    FreshFacts(visible, selected);
    AppendDistinct(selected, added);
    forall t ensures t in expanded <==> t in visible {
      if t in visible {
        HasNameAppend(selected, added, t.name);
        HasNameIn(expanded, t.name);
        var u :| u in expanded && u.name == t.name;
        SameNameSameTool(visible, t, u);
      }
    }
    ByNameSorted(expanded);
    ByNameSorted(visible);
    StrictlySortedUnique(Sort(expanded, NameKey), Sort(visible, NameKey), NameKey);
  }

  // ---------------------------------------------------------------- whole turns

  /** One thing that can happen to the surface during a session with a fixed visible list. */
  datatype Step =
    | DoSelect(turn: Turn, fs: Families, cfg: Config)
    | DoCurate(turn: Turn, fs: Families, cfg: Config, reply: Option<seq<string>>)
    | DoWiden(missing: Option<string>, filter: Option<Turn>)

  function Next(current: Selection, step: Step, tools: seq<Tool>): Selection {
    match step
    case DoSelect(turn, fs, cfg) => Select(turn, fs, cfg, tools)
    case DoCurate(turn, fs, cfg, reply) => SelectCurated(turn, fs, cfg, tools, reply)
    case DoWiden(missing, filter) => Widen(current, tools, missing, filter)
  }

  function Surface(current: Selection, steps: seq<Step>, tools: seq<Tool>): Selection
    decreases steps
  {
    if steps == [] then current else Surface(Next(current, steps[0], tools), steps[1..], tools)
  }

  /** Over every interleaving of selecting, curating with any reply and widening, the planner never sees a
      tool that was not visible, nor one twice. */
  lemma {:induction false} SurfaceStaysInside(current: Selection, steps: seq<Step>, tools: seq<Tool>)
    requires DistinctNames(tools) && Inside(current, tools)
    ensures Inside(Surface(current, steps, tools), tools)
    decreases steps
  {
    if steps != [] {
      StepInside(current, steps[0], tools);
      SurfaceStaysInside(Next(current, steps[0], tools), steps[1..], tools);
    }
  }

  lemma StepInside(current: Selection, step: Step, tools: seq<Tool>)
    requires DistinctNames(tools) && Inside(current, tools)
    ensures Inside(Next(current, step, tools), tools)
  {
    match step
    case DoSelect(turn, fs, cfg) => SelectInside(turn, fs, cfg, tools);
    case DoCurate(turn, fs, cfg, reply) =>
      if SelectCurated(turn, fs, cfg, tools, reply).how == AiCurated {
        CurationKeepsMandatory(turn, fs, cfg, tools, reply);
        MailSurfaceFacts(turn, tools);
      } else {
        UncuratedSame(turn, fs, cfg, tools, reply);
        SelectInside(turn, fs, cfg, tools);
      }
    case DoWiden(missing, filter) => WidenInside(current, tools, missing, filter);
  }

  /** So after any interleaving one widening shows everything offered, and another changes nothing. */
  lemma WidenAfterAnything(current: Selection, steps: seq<Step>, tools: seq<Tool>, missing: Option<string>,
                           again: Option<string>, turn: Option<Turn>)
    requires DistinctNames(tools) && Inside(current, tools)
    ensures var end := Surface(current, steps, tools);
            var once := Widen(end, tools, missing, turn);
            && (forall t :: t in once.selected <==> t in end.selected || t in Offered(tools, turn))
            && Widen(once, tools, again, turn) == once
  {
    SurfaceStaysInside(current, steps, tools);
    WidenReachesAll(Surface(current, steps, tools), tools, missing, again, turn);
  }

  // ---------------------------------------------------------------- recorded scores

  /** The tools looked at are ranked ones whose names the loop finds taken or takes; all it takes are among them. */
  lemma {:induction false} VisitedFacts(ranked: seq<Tool>, seen: seq<Tool>, room: nat)
    ensures forall t :: t in Visited(ranked, seen, room) ==>
      t in ranked && (HasName(seen, t.name) || HasName(Take(Fresh(ranked, seen), room), t.name))
    ensures forall t :: t in Take(Fresh(ranked, seen), room) ==> t in Visited(ranked, seen, room)
  {
    if ranked != [] && room > 0 {
      if HasName(seen, ranked[0].name) {
        VisitedFacts(ranked[1..], seen, room);
      } else {
        VisitedFacts(ranked[1..], seen + [ranked[0]], room - 1);
        VisitedNew(ranked[0], Visited(ranked[1..], seen + [ranked[0]], room - 1), seen,
                   Fresh(ranked[1..], seen + [ranked[0]]), room);
      }
    }
  }

  lemma VisitedNew(head: Tool, visited: seq<Tool>, seen: seq<Tool>, rest: seq<Tool>, room: nat)
    requires room > 0
    requires forall t :: t in visited ==> HasName(seen + [head], t.name) || HasName(Take(rest, room - 1), t.name)
    requires forall t :: t in Take(rest, room - 1) ==> t in visited
    ensures forall t :: t in [head] + visited ==> HasName(seen, t.name) || HasName(Take([head] + rest, room), t.name)
    ensures forall t :: t in Take([head] + rest, room) ==> t in [head] + visited
  {
    assert Take([head] + rest, room) == [head] + Take(rest, room - 1);
    forall t | t in [head] + visited ensures HasName(seen, t.name) || HasName(Take([head] + rest, room), t.name) {
      HasNameAppend(seen, [head], t.name);
      HasNameAppend([head], Take(rest, room - 1), t.name);
      if t == head { assert [head][0].name == t.name; }
    }
  }

  lemma {:induction false} ScoredFacts(turn: Turn, ts: seq<Tool>, name: string) returns (t: Tool)
    requires name in Scored(turn, ts)
    ensures t in ts && t.name == name && Scored(turn, ts)[name] == turn.score(t)
  {
    t := ts[|ts| - 1];
    if t.name != name { t := ScoredFacts(turn, ts[..|ts| - 1], name); }
  }

  lemma {:induction false} ScoredNames(turn: Turn, ts: seq<Tool>)
    ensures forall t :: t in ts ==> t.name in Scored(turn, ts)
  {
    if ts != [] {
      ScoredNames(turn, ts[..|ts| - 1]);
      assert ts == ts[..|ts| - 1] + [ts[|ts| - 1]];
    }
  }

  /** Each score is that of a selected tool, and every selected tool has one unless it is recorded as mandatory. */
  ghost predicate Accounts(turn: Turn, selected: seq<Tool>, scores: map<string, int>, recorded: seq<string>) {
    && (forall name :: name in scores ==> exists t :: t in selected && t.name == name && scores[name] == turn.score(t))
    && (forall t :: t in selected ==> t.name in scores || t.name in recorded)
  }

  /** On the retrieval path the recorded scores account for the selection. */
  lemma ScoresAccount(turn: Turn, fs: Families, cfg: Config, tools: seq<Tool>)
    requires DistinctNames(tools)
    requires Select(turn, fs, cfg, tools).how == FamilyRetrieve
    ensures var s := Select(turn, fs, cfg, tools);
            Accounts(turn, s.selected, s.scores, s.mandatoryAdded)
  {
    var ranked, picked, room := RetrievedParts(turn, fs, cfg, tools);
    AccountFor(turn, Select(turn, fs, cfg, tools), ranked, picked, room, tools);
  }

  /** A selection that is made of these parts. */
  ghost predicate MadeOf(turn: Turn, s: Selection, ranked: seq<Tool>, picked: seq<Tool>, room: nat) {
    && s.scores == Scored(turn, Visited(ranked, picked, room)) && s.mandatoryAdded == NamesOf(picked)
    && (forall t :: t in s.selected <==> t in picked || t in Take(Fresh(ranked, picked), room))
  }

  ghost predicate AllIn(part: seq<Tool>, whole: seq<Tool>) { forall t :: t in part ==> t in whole }

  lemma RetrievedParts(turn: Turn, fs: Families, cfg: Config, tools: seq<Tool>)
    returns (ranked: seq<Tool>, picked: seq<Tool>, room: nat)
    requires DistinctNames(tools)
    requires Select(turn, fs, cfg, tools).how == FamilyRetrieve
    ensures MadeOf(turn, Select(turn, fs, cfg, tools), ranked, picked, room)
    ensures AllIn(ranked, tools) && AllIn(picked, tools)
  {
    var visible := MailSurface(turn, tools);
    ranked := Ranked(turn, Narrow(turn, fs, visible), cfg.retrievalTopK);
    picked := Picked(turn, fs, cfg, visible);
    room := cfg.maxSelected - |picked|;
    RetrievalMembers(turn, fs, cfg, tools);
    MailSurfaceFacts(turn, tools);
    PartsVisible(turn, fs, cfg, visible);
    FreshIsOthers(ranked, picked);
  }

  lemma PartsVisible(turn: Turn, fs: Families, cfg: Config, visible: seq<Tool>)
    requires DistinctNames(visible)
    ensures var ranked, picked := Ranked(turn, Narrow(turn, fs, visible), cfg.retrievalTopK), Picked(turn, fs, cfg, visible);
            DistinctNames(ranked) && |picked| <= cfg.maxSelected && AllIn(ranked, visible) && AllIn(picked, visible)
  {
    RankedNames(turn, fs, visible, cfg.retrievalTopK);
    PickedFacts(turn, fs, cfg, visible);
  }

  lemma AccountFor(turn: Turn, s: Selection, ranked: seq<Tool>, picked: seq<Tool>, room: nat, tools: seq<Tool>)
    requires MadeOf(turn, s, ranked, picked, room)
    requires DistinctNames(tools) && AllIn(ranked, tools) && AllIn(picked, tools)
    ensures Accounts(turn, s.selected, s.scores, s.mandatoryAdded)
  {
    forall name | name in s.scores ensures exists t :: t in s.selected && t.name == name && s.scores[name] == turn.score(t) {
      var t := ScoreSource(turn, ranked, picked, room, tools, name);
      assert t in s.selected;
    }
    forall t | t in s.selected ensures t.name in s.scores || t.name in s.mandatoryAdded {
      SelectedScored(turn, ranked, picked, room, t);
    }
  }

  lemma ScoreSource(turn: Turn, ranked: seq<Tool>, picked: seq<Tool>, room: nat, visible: seq<Tool>, name: string)
    returns (t: Tool)
    requires DistinctNames(visible) && AllIn(ranked, visible) && AllIn(picked, visible)
    requires name in Scored(turn, Visited(ranked, picked, room))
    ensures t.name == name && Scored(turn, Visited(ranked, picked, room))[name] == turn.score(t)
    ensures t in picked || t in Take(Fresh(ranked, picked), room)
  {
    t := ScoredFacts(turn, Visited(ranked, picked, room), name);
    VisitedFacts(ranked, picked, room);
    if HasName(picked, name) {
      PickedByName(picked, t, visible);
    } else {
      FreshFacts(ranked, picked);
      PickedByName(Take(Fresh(ranked, picked), room), t, visible);
    }
  }

  lemma SelectedScored(turn: Turn, ranked: seq<Tool>, picked: seq<Tool>, room: nat, t: Tool)
    requires t in picked || t in Take(Fresh(ranked, picked), room)
    ensures t.name in Scored(turn, Visited(ranked, picked, room)) || t.name in NamesOf(picked)
  {
    VisitedFacts(ranked, picked, room);
    ScoredNames(turn, Visited(ranked, picked, room));
    if t in picked {
      var i :| 0 <= i < |picked| && picked[i] == t;
      assert NamesOf(picked)[i] == t.name;
    }
  }
}
