/** What the selection promises of mandatory tools and of a user's mail. */
module ToolMandatory {
  import opened Sorting
  import opened ToolSelection
  import opened ToolSelectionTheorems

  // ---------------------------------------------------------------- mandatory tools

  lemma {:induction false} PresentOrdered(names: seq<string>, visible: seq<Tool>, key: string -> Key)
    requires StrictlySorted(names, key)
    ensures StrictlySorted(Present(names, visible), (t: Tool) => key(t.name))
  {
    if names != [] {
      PresentOrdered(names[1..], visible, key);
      PresentSubset(names[1..], visible);
      var here, rest := ByName(visible, names[0]), Present(names[1..], visible);
      if here.Some? {
        forall t | t in rest ensures Less(key(names[0]), key(t.name)) {
          var k :| 0 <= k < |names[1..]| && names[1..][k] == t.name;
          assert Less(key(names[0]), key(names[k + 1]));
        }
        HeadOrdered(here.value, rest, (t: Tool) => key(t.name));
      }
    }
  }

  lemma HeadOrdered(head: Tool, rest: seq<Tool>, key: Tool -> Key)
    requires StrictlySorted(rest, key) && forall t :: t in rest ==> Less(key(head), key(t))
    ensures StrictlySorted([head] + rest, key)
  {
    var s := [head] + rest;
    forall i, j | 0 <= i < j < |s| ensures Less(key(s[i]), key(s[j])) {
      assert s[j] == rest[j - 1] && rest[j - 1] in rest;
      if i > 0 { assert s[i] == rest[i - 1]; }
    }
  }

  lemma OrderFacts(turn: Turn, fs: Families, visible: seq<Tool>)
    ensures StrictlySorted(MandatoryOrder(turn, fs, visible), MandatoryKey(fs))
    ensures forall n :: n in MandatoryOrder(turn, fs, visible) <==> n in MandatoryNames(turn, fs, visible)
  {
    var names := Unique(MandatoryNames(turn, fs, visible));
    UniqueFacts(MandatoryNames(turn, fs, visible));
    MandatoryKeyInjective(fs);
    SortStrict(names, MandatoryKey(fs));
    SortPermutes(names, MandatoryKey(fs));
  }

  /** An always-mandatory name sorts before every name that is not. */
  lemma AlwaysFirst(fs: Families, m: string, n: string)
    requires n in fs.mandatoryAlways && Less(MandatoryKey(fs)(m), MandatoryKey(fs)(n))
    ensures m in fs.mandatoryAlways
  {
  }

  /** A mandatory tool that is visible is taken, or the cap is full of mandatory tools; and one that is always
      mandatory gives way to none that is not. */
  lemma MandatoryTaken(turn: Turn, fs: Families, cfg: Config, visible: seq<Tool>, t: Tool)
    requires DistinctNames(visible)
    requires t in visible && t.name in MandatoryNames(turn, fs, visible)
    ensures var picked := Picked(turn, fs, cfg, visible);
            && (t in picked || |picked| == cfg.maxSelected)
            && (t.name in fs.mandatoryAlways && t !in picked ==> forall p :: p in picked ==> p.name in fs.mandatoryAlways)
  {
    var order := MandatoryOrder(turn, fs, visible);
    var present := Present(order, visible);
    var picked := Picked(turn, fs, cfg, visible);
    var key := (u: Tool) => MandatoryKey(fs)(u.name);
    OrderFacts(turn, fs, visible);
    PresentSubset(order, visible);
    PickedByName(present, t, visible);
    if t !in picked && t.name in fs.mandatoryAlways {
      PresentOrdered(order, visible, MandatoryKey(fs));
      forall p | p in picked ensures p.name in fs.mandatoryAlways {
        CutFirst(present, cfg.maxSelected, key, p, t);
        AlwaysFirst(fs, p.name, t.name);
      }
    }
  }

  /** On the retrieval path: every visible tool that the turn makes mandatory is selected and recorded, unless
      mandatory tools alone fill the cap. */
  lemma MandatorySelected(turn: Turn, fs: Families, cfg: Config, tools: seq<Tool>, t: Tool)
    requires DistinctNames(tools)
    requires Select(turn, fs, cfg, tools).how == FamilyRetrieve
    requires t in MailSurface(turn, tools) && t.name in MandatoryNames(turn, fs, MailSurface(turn, tools))
    ensures var s := Select(turn, fs, cfg, tools);
            (t in s.selected && t.name in s.mandatoryAdded) || |s.mandatoryAdded| == cfg.maxSelected
  {
    var visible := MailSurface(turn, tools);
    var picked := Picked(turn, fs, cfg, visible);
    MailSurfaceFacts(turn, tools);
    MandatoryTaken(turn, fs, cfg, visible, t);
    RetrievalMembers(turn, fs, cfg, tools);
    if t in picked {
      var i :| 0 <= i < |picked| && picked[i] == t;
      assert NamesOf(picked)[i] == t.name;
    }
  }

  // ---------------------------------------------------------------- the user's real mail

  /** On a mail turn with real mail, unless the user asks for the demo: no seeded mail is shown, even when the real
      account is denied to the session; and a tool that is hidden is seeded mail, or a listing that the summary
      tool replaces, or the turn asks for nothing but a summary. */
  lemma RealMailOnly(turn: Turn, tools: seq<Tool>, t: Tool)
    requires IsMailTurn(turn) && HasRealMail(turn) && !turn.demoRequest
    ensures t in MailSurface(turn, tools) ==> t in tools && !IsSeededMail(t)
    ensures t in tools && t !in MailSurface(turn, tools) ==>
      IsSeededMail(t) || (HasName(tools, SUMMARIZE) && (IsMailListing(t) || (turn.recentSummary && t.name != SUMMARIZE)))
  {
    if t.name == SUMMARIZE { SummarizeKept(t); }
  }
}
