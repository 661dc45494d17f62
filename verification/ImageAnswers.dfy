/** Answers about generated images: showing the tool's image, and no image the tools did not make. */
module ImageAnswers {
  import opened Wrappers
  import opened PyStrings
  import opened ImageMarkdown

  // ---------------------------------------------------------------- answers about generated images

  /** One tool call of the turn; `markdown` is the text under that key of its output, if any. */
  datatype Outcome = Outcome(toolName: string, allowed: bool, markdown: Option<string>)

  predicate IsGenerateTool(name: string) {
    name == "bundled-image-generate.image.generate" || name == "bundled-images.image.generate" || name == "image.generate"
  }

  /** `preferred_image_markdown_from_outcomes`. */
  function Preferred(outcomes: seq<Outcome>): Option<string> {
    if outcomes == [] then None
    else
      var o := outcomes[0];
      if IsGenerateTool(o.toolName) && o.allowed && o.markdown.Some? && Strip(o.markdown.value) != "" then
        Some(Strip(o.markdown.value))
      else Preferred(outcomes[1..])
  }

  /** `expand` is home-directory expansion. */
  function Norm(path: string, expand: string -> string): string { expand(Strip(path)) }

  function Normalised(paths: seq<string>, expand: string -> string): set<string> {
    set p | p in paths :: Norm(p, expand)
  }

  /** `ensure_generated_image_markdown_present`. */
  function Ensure(content: string, outcomes: seq<Outcome>, expand: string -> string): string {
    match Preferred(outcomes)
    case None => content
    case Some(preferred) =>
      var generated := Normalised(Paths(preferred), expand);
      if generated == {} then content
      else if generated * Normalised(Paths(content), expand) != {} then content
      else if Strip(content) == "" then preferred
      else RStrip(content) + (SEPARATOR + preferred)
  }

  /** The text shows a path that the tool's own markdown shows. */
  predicate Cites(content: string, outcomes: seq<Outcome>, expand: string -> string) {
    Preferred(outcomes).Some? &&
    Normalised(Paths(Preferred(outcomes).value), expand) * Normalised(Paths(content), expand) != {}
  }

  /** The tool produced markdown that shows at least one image. */
  predicate Generated(outcomes: seq<Outcome>) {
    Preferred(outcomes).Some? && Paths(Preferred(outcomes).value) != []
  }

  lemma NormalisedEmptyIff(paths: seq<string>, expand: string -> string)
    ensures Normalised(paths, expand) == {} <==> paths == []
  {
    if paths != [] { assert Norm(paths[0], expand) in Normalised(paths, expand); }
  }

  lemma PreferredCitesItself(outcomes: seq<Outcome>, expand: string -> string)
    requires Generated(outcomes)
    ensures Cites(Preferred(outcomes).value, outcomes, expand)
  {
    var g := Normalised(Paths(Preferred(outcomes).value), expand);
    NormalisedEmptyIff(Paths(Preferred(outcomes).value), expand);
    assert g * g == g;
  }

  lemma {:induction false} PreferredTrimmed(outcomes: seq<Outcome>)
    ensures Preferred(outcomes).Some? ==> Preferred(outcomes).value != "" && Trimmed(Preferred(outcomes).value)
  {
    if outcomes != [] {
      PreferredTrimmed(outcomes[1..]);
      if outcomes[0].markdown.Some? { StripTrims(outcomes[0].markdown.value); }
    }
  }

  // ---------------------------------------------------------------- when a generated image reaches the user

  /** The paths show one that the markdown shows. */
  predicate Meets(m: string, paths: seq<string>, expand: string -> string) {
    Normalised(Paths(m), expand) * Normalised(paths, expand) != {}
  }

  /** The answer lets an image of the tool's markdown through to the user: it shows one itself, or is blank, or the
      way it ends lets the scanner find one in the markdown appended to it. */
  predicate Reaches(content: string, m: string, expand: string -> string) {
    Meets(m, Paths(content), expand) || Strip(content) == "" || Meets(m, Tail(EndingOf(RStrip(content)), m), expand)
  }

  lemma MeetsEither(m: string, p: seq<string>, q: seq<string>, expand: string -> string)
    ensures Meets(m, p + q, expand) <==> Meets(m, p, expand) || Meets(m, q, expand)
  {
    var g := Normalised(Paths(m), expand);
    assert Normalised(p + q, expand) == Normalised(p, expand) + Normalised(q, expand);
    assert g * Normalised(p + q, expand) == g * Normalised(p, expand) + g * Normalised(q, expand);
  }

  lemma EnsureUnfold(content: string, outcomes: seq<Outcome>, expand: string -> string)
    requires Generated(outcomes)
    ensures var m := Preferred(outcomes).value;
            Ensure(content, outcomes, expand) ==
              if Meets(m, Paths(content), expand) then content
              else if Strip(content) == "" then m
              else RStrip(content) + (SEPARATOR + m)
    ensures forall c :: Cites(c, outcomes, expand) <==> Meets(Preferred(outcomes).value, Paths(c), expand)
  {
    NormalisedEmptyIff(Paths(Preferred(outcomes).value), expand);
  }

  /** A generated image reaches the user exactly if the answer lets it through. */
  lemma EnsureCitesIff(content: string, outcomes: seq<Outcome>, expand: string -> string)
    requires Generated(outcomes)
    ensures Cites(Ensure(content, outcomes, expand), outcomes, expand) <==> Reaches(content, Preferred(outcomes).value, expand)
  {
    var m, c := Preferred(outcomes).value, RStrip(content);
    EnsureUnfold(content, outcomes, expand);
    PreferredCitesItself(outcomes, expand);
    if !Meets(m, Paths(content), expand) && Strip(content) != "" {
      ScanAppended(c, m);
      PathsOfTrimmed(content);
      MeetsEither(m, Paths(c), Tail(EndingOf(c), m), expand);
    }
  }

  /** Markdown that leads with an image gets through every answer but one that leaves an image target open; and
      through that only by a second image, or if the swallowed text names a generated path. */
  lemma LeadingReachesIff(content: string, m: string, expand: string -> string)
    requires Leads(m)
    ensures Reaches(content, m, expand) <==>
      || Meets(m, Paths(content), expand) || Strip(content) == ""
      || !TargetOpen(RStrip(content)) || AfterLeading(m) != []
      || Norm(Swallowed(EndingOf(RStrip(content)).target, m), expand) in Normalised(Paths(m), expand)
  {
    var e := EndingOf(RStrip(content));
    MeetsItself(m, Paths(m), expand);
    match e
    case Closed => LeadingPaths(m);
    case AltLeft =>
      LeadingPaths(m);
      LeadingBehindAlt(m);
    case TargetLeft(t) =>
      LeadingPaths(m);
      LeadingBehindTarget(t, m);
      MeetsEither(m, [Swallowed(t, m)], AfterLeading(m), expand);
      MeetsItself(m, AfterLeading(m), expand);
      assert Normalised([Swallowed(t, m)], expand) == {Norm(Swallowed(t, m), expand)};
  }

  lemma MeetsItself(m: string, part: seq<string>, expand: string -> string)
    requires forall p :: p in part ==> p in Paths(m)
    ensures Meets(m, part, expand) <==> part != []
  {
    NormalisedEmptyIff(part, expand);
    if part != [] {
      var q := Norm(part[0], expand);
      assert q in Normalised(Paths(m), expand) * Normalised(part, expand);
    }
  }

  /** Ensuring twice is ensuring once exactly when no image was generated or the answer lets it through. Otherwise each
      pass appends the markdown again. */
  lemma EnsureIdempotentIff(content: string, outcomes: seq<Outcome>, expand: string -> string)
    ensures var once := Ensure(content, outcomes, expand);
            Ensure(once, outcomes, expand) == once <==>
              !Generated(outcomes) || Reaches(content, Preferred(outcomes).value, expand)
  {
    var once := Ensure(content, outcomes, expand);
    if Generated(outcomes) {
      EnsureCitesIff(content, outcomes, expand);
      EnsureUnfold(once, outcomes, expand);
      if !Cites(once, outcomes, expand) {
        EnsureUnfold(content, outcomes, expand);
        PreferredCitesItself(outcomes, expand);
        AppendedAgain(RStrip(content), Preferred(outcomes).value, once, outcomes);
      }
    } else if Preferred(outcomes).Some? {
      NormalisedEmptyIff(Paths(Preferred(outcomes).value), expand);
    }
  }

  lemma AppendedAgain(c: string, m: string, once: string, outcomes: seq<Outcome>)
    requires Preferred(outcomes) == Some(m) && once == c + (SEPARATOR + m)
    ensures Strip(once) != "" && RStrip(once) + (SEPARATOR + m) != once
  {
    PreferredTrimmed(outcomes);
    assert once[|once| - 1] == m[|m| - 1];
    StripReach(once, |once| - 1);
    LongerDiffers(once, SEPARATOR + m);
  }

  lemma LongerDiffers(s: string, t: string)
    requires s != "" && !IsSpace(s[|s| - 1]) && t != ""
    ensures RStrip(s) + t != s
  {
    assert RStrip(s) == s;
    assert |s + t| > |s|;
  }

  /** Home expansion touches only a path that starts with `~`. */
  ghost predicate HomeOnly(expand: string -> string) { forall s :: !(s != "" && s[0] == '~') ==> expand(s) == s }

  /** The answer `![a](` swallows the tool's only image, and each further pass appends it again. */
  lemma OpenTargetLosesImage(content: string, m: string, outcomes: seq<Outcome>, expand: string -> string)
    requires content == ['!', '[', 'a', ']', '('] && m == ['!', '[', 'x', ']', '(', 'p', ')']
    requires Preferred(outcomes) == Some(m) && HomeOnly(expand)
    ensures var once := Ensure(content, outcomes, expand);
            !Cites(once, outcomes, expand) && Ensure(once, outcomes, expand) != once
  {
    SmallMarkdown(m);
    NormalisedEmptyIff(Paths(m), expand);
    SmallNotReached(content, m, expand);
    EnsureCitesIff(content, outcomes, expand);
    EnsureIdempotentIff(content, outcomes, expand);
  }

  lemma SmallNotReached(content: string, m: string, expand: string -> string)
    requires content == ['!', '[', 'a', ']', '('] && m == ['!', '[', 'x', ']', '(', 'p', ')'] && HomeOnly(expand)
    ensures !Reaches(content, m, expand)
  {
    SmallMarkdown(m);
    SmallAnswer(content);
    NoImages(content);
    LeadingReachesIff(content, m, expand);
    StripReach(content, 0);
    SmallSwallowed(m, Swallowed("", m));
    SmallNames(Swallowed("", m), expand);
    assert Normalised([['p']], expand) == {Norm(['p'], expand)};
  }

  lemma SmallNames(s: string, expand: string -> string)
    requires HomeOnly(expand) && Strip(s) == s && |s| > 1 && s[0] != '~'
    ensures Norm(s, expand) != Norm(['p'], expand)
  {
    StripTrims(['p']);
  }

  lemma SmallMarkdown(m: string)
    requires m == ['!', '[', 'x', ']', '(', 'p', ')']
    ensures Leads(m) && ImageAt(m) == Some((5, 6)) && Paths(m) == [['p']] && AfterLeading(m) == []
  {
    ShapedImage(m, 3, 6);
    AltEndIs(m, 3);
    assert m[5..6] == ['p'] && m[7..] == "";
    StripTrims(['p']);
    LeadingPaths(m);
  }

  lemma SmallAnswer(content: string)
    requires content == ['!', '[', 'a', ']', '(']
    ensures RStrip(content) == content && EndingOf(content) == TargetLeft("")
  {
    AltEndIs(content, 3);
    TargetEndIs(content, 3, 5);
    assert content[5..] == "";
  }

  lemma NoImages(content: string)
    requires ')' !in content
    ensures Paths(content) == []
  {
    NoCloseNoPaths(content);
  }

  lemma SmallSwallowed(m: string, s: string)
    requires m == ['!', '[', 'x', ']', '(', 'p', ')'] && ImageAt(m) == Some((5, 6)) && s == Swallowed("", m)
    ensures |s| > 1 && s[0] != '~' && Strip(s) == s
  {
    var raw := "" + (SEPARATOR + m[..6]);
    assert raw[7] == 'p' && raw[2] == '!';
    StripSpan(raw, 2, 7);
    StripTrims(raw);
    StripTrims(s);
    assert '~' !in raw;
    assert s[0] in s;
  }

  // ---------------------------------------------------------------- hallucinated paths

  function ReplaceBackslashes(s: string): string {
    seq(|s|, i requires 0 <= i < |s| => if s[i] == '\\' then '/' else s[i])
  }

  predicate Contains(s: string, part: string) { exists i :: 0 <= i <= |s| && part <= s[i..] }

  /** `is_generated_work_image_path`. */
  predicate IsWorkPath(path: string, expand: string -> string) {
    var expanded := ReplaceBackslashes(Norm(path, expand));
    !("http://" <= expanded) && !("https://" <= expanded) && Contains(expanded, "/.capdep/work/images/")
  }

  function Cited(content: string, expand: string -> string): set<string> {
    set p | p in Paths(content) && IsWorkPath(p, expand) :: Norm(p, expand)
  }

  /** The work paths that some given text shows. */
  ghost predicate ShownIn(texts: seq<Option<string>>, q: string, expand: string -> string) {
    exists i :: 0 <= i < |texts| && texts[i].Some? && q in Cited(texts[i].value, expand)
  }

  function CitedAmong(raws: seq<string>, expand: string -> string): set<string> {
    set p | p in raws && IsWorkPath(p, expand) :: Norm(p, expand)
  }

  lemma CitedAmongNext(raws: seq<string>, r: nat, expand: string -> string)
    requires r < |raws|
    ensures CitedAmong(raws[..r + 1], expand) ==
      CitedAmong(raws[..r], expand) + if IsWorkPath(raws[r], expand) then {Norm(raws[r], expand)} else {}
  {
    assert raws[..r + 1] == raws[..r] + [raws[r]];
  }

  /** The inner loop of `collect_prior_work_image_paths`, over one text. */
  method AddCited(before: set<string>, text: string, expand: string -> string) returns (paths: set<string>)
    ensures paths == before + Cited(text, expand)
  {
    paths := before;
    var raws := Paths(text);
    for r := 0 to |raws|
      invariant paths == before + CitedAmong(raws[..r], expand)
    {
      CitedAmongNext(raws, r, expand);
      if IsWorkPath(raws[r], expand) {
        paths := paths + {Norm(raws[r], expand)};
      }
    }
    assert raws[..|raws|] == raws;
  }

  /** `collect_prior_work_image_paths`. */
  method CollectPriorPaths(texts: seq<Option<string>>, expand: string -> string) returns (paths: set<string>)
    ensures forall q :: q in paths <==> ShownIn(texts, q, expand)
  {
    paths := {};
    for k := 0 to |texts|
      invariant forall q :: q in paths <==> ShownIn(texts[..k], q, expand)
    {
      ShownInNext(texts, k, expand);
      if texts[k].Some? && texts[k].value != "" {
        paths := AddCited(paths, texts[k].value, expand);
      }
    }
    assert texts[..|texts|] == texts;
  }

  lemma ShownInNext(texts: seq<Option<string>>, k: nat, expand: string -> string)
    requires k < |texts|
    ensures forall q :: ShownIn(texts[..k + 1], q, expand) <==>
      ShownIn(texts[..k], q, expand) || (texts[k].Some? && texts[k].value != "" && q in Cited(texts[k].value, expand))
  {
    var now, next := texts[..k], texts[..k + 1];
    assert texts[k].Some? && texts[k].value == "" ==> Paths(texts[k].value) == [] && Cited(texts[k].value, expand) == {};
    forall q ensures ShownIn(next, q, expand) <==>
      ShownIn(now, q, expand) || (texts[k].Some? && texts[k].value != "" && q in Cited(texts[k].value, expand))
    {
      if i :| 0 <= i < |now| && now[i].Some? && q in Cited(now[i].value, expand) { assert next[i] == now[i]; }
      if i :| 0 <= i < |next| && next[i].Some? && q in Cited(next[i].value, expand) {
        if i < k { assert now[i] == next[i]; }
      }
      if texts[k].Some? && q in Cited(texts[k].value, expand) { assert next[k] == texts[k]; }
    }
  }

  function NormSet(paths: set<string>, expand: string -> string): set<string> { set p | p in paths :: Norm(p, expand) }

  /** `looks_like_hallucinated_image_markdown`. */
  predicate Hallucinated(content: string, prior: set<string>, allowed: set<string>, expand: string -> string) {
    var cited, allowedNorm := Cited(content, expand), NormSet(allowed, expand);
    cited != {} && (allowed == {} || !(cited <= allowedNorm) || (cited <= prior && allowedNorm - cited != {}))
  }

  /** `repair_hallucinated_image_markdown`. */
  function Repair(content: string, prior: set<string>, allowed: set<string>, outcomes: seq<Outcome>, expand: string -> string): string {
    if Hallucinated(content, prior, allowed, expand) && Preferred(outcomes).Some? then Preferred(outcomes).value else content
  }

  /** After the repair no work path is shown that the tools did not return, exactly when: without tool markdown, the
      answer showed none; with it, the answer was not hallucinated or the markdown itself shows none. */
  lemma RepairedPathsAllowed(content: string, prior: set<string>, allowed: set<string>, outcomes: seq<Outcome>, expand: string -> string)
    ensures Cited(Repair(content, prior, allowed, outcomes, expand), expand) <= NormSet(allowed, expand) <==>
      match Preferred(outcomes)
      case None => Cited(content, expand) <= NormSet(allowed, expand)
      case Some(m) =>
        !Hallucinated(content, prior, allowed, expand) || Cited(m, expand) <= NormSet(allowed, expand)
  {
    if allowed == {} { assert NormSet(allowed, expand) == {}; }
  }

  /** The turn's last two steps together: a generated image is shown at the end exactly if the answer was hallucinated
      or lets it through; and then another pass changes nothing. */
  lemma RepairedAnswerCitesIff(content: string, prior: set<string>, allowed: set<string>, outcomes: seq<Outcome>, expand: string -> string)
    requires Generated(outcomes)
    ensures var end := Ensure(Repair(content, prior, allowed, outcomes, expand), outcomes, expand);
            && (Cites(end, outcomes, expand) <==>
                  Hallucinated(content, prior, allowed, expand) || Reaches(content, Preferred(outcomes).value, expand))
            && (Ensure(end, outcomes, expand) == end <==> Cites(end, outcomes, expand))
  {
    var repaired := Repair(content, prior, allowed, outcomes, expand);
    EnsureCitesIff(repaired, outcomes, expand);
    EnsureIdempotentIff(repaired, outcomes, expand);
    MeetsItself(Preferred(outcomes).value, Paths(Preferred(outcomes).value), expand);
  }
}
