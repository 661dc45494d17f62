/** What the steps for generated images do, in the tools' and paths' own names. */
module ImageRules {
  import opened Wrappers
  import opened PyStrings
  import opened ImageMarkdown
  import opened ImageAnswers

  // ---------------------------------------------------------------- the tool's markdown

  /** An admitted call of an image generator that returned markdown which is not blank. */
  ghost predicate Gives(o: Outcome) {
    && (o.toolName == "bundled-image-generate.image.generate" || o.toolName == "bundled-images.image.generate"
        || o.toolName == "image.generate")
    && o.allowed && o.markdown.Some? && exists i :: 0 <= i < |o.markdown.value| && !IsSpace(o.markdown.value[i])
  }

  lemma GivesIff(o: Outcome)
    ensures Gives(o) <==> IsGenerateTool(o.toolName) && o.allowed && o.markdown.Some? && Strip(o.markdown.value) != ""
  {
    if o.markdown.Some? { StripTrims(o.markdown.value); }
  }

  /** The preferred markdown is that of the first such call, trimmed. */
  lemma {:induction false} PreferredIff(outcomes: seq<Outcome>, m: string)
    ensures Preferred(outcomes) == Some(m) <==>
      exists k :: 0 <= k < |outcomes| && Gives(outcomes[k]) && m == Strip(outcomes[k].markdown.value)
                  && forall j :: 0 <= j < k ==> !Gives(outcomes[j])
  {
    if outcomes != [] {
      GivesIff(outcomes[0]);
      PreferredIff(outcomes[1..], m);
      if !Gives(outcomes[0]) {
        if k :| 0 <= k < |outcomes[1..]| && Gives(outcomes[1..][k]) && m == Strip(outcomes[1..][k].markdown.value)
              && forall j :: 0 <= j < k ==> !Gives(outcomes[1..][j]) {
          forall j | 0 <= j < k + 1 ensures !Gives(outcomes[j]) { if j > 0 { assert outcomes[j] == outcomes[1..][j - 1]; } }
          assert outcomes[k + 1] == outcomes[1..][k];
        }
        if k :| 0 <= k < |outcomes| && Gives(outcomes[k]) && m == Strip(outcomes[k].markdown.value)
              && forall j :: 0 <= j < k ==> !Gives(outcomes[j]) {
          assert outcomes[1..][k - 1] == outcomes[k];
          assert forall j | 0 <= j < k - 1 :: outcomes[1..][j] == outcomes[j + 1];
        }
      }
    }
  }

  /** The two texts show a common path. */
  ghost predicate ShareImage(m: string, content: string, expand: string -> string) {
    exists p, q :: p in Paths(m) && q in Paths(content) && expand(Strip(p)) == expand(Strip(q))
  }

  lemma ShareIff(m: string, content: string, expand: string -> string)
    ensures ShareImage(m, content, expand) <==> Normalised(Paths(m), expand) * Normalised(Paths(content), expand) != {}
  {
    var g, h := Normalised(Paths(m), expand), Normalised(Paths(content), expand);
    if x :| x in g * h {
      var p :| p in Paths(m) && Norm(p, expand) == x;
      var q :| q in Paths(content) && Norm(q, expand) == x;
    }
    if p, q :| p in Paths(m) && q in Paths(content) && expand(Strip(p)) == expand(Strip(q)) {
      assert Norm(p, expand) in g * h;
    }
  }

  /** What ensuring makes of an answer: itself when the tool's markdown shows no image or the answer shows one of its
      images, the markdown when the answer is blank, and else the answer, a blank line and the markdown. */
  lemma EnsureIs(content: string, outcomes: seq<Outcome>, expand: string -> string)
    ensures Ensure(content, outcomes, expand) ==
      match Preferred(outcomes)
      case None => content
      case Some(m) =>
        if Paths(m) == [] || ShareImage(m, content, expand) then content
        else if forall i :: 0 <= i < |content| ==> IsSpace(content[i]) then m
        else RStrip(content) + "\n\n" + m
  {
    StripTrims(content);
    if Preferred(outcomes).Some? {
      var m := Preferred(outcomes).value;
      NormalisedEmptyIff(Paths(m), expand);
      ShareIff(m, content, expand);
      assert SEPARATOR == "\n\n";
      assert RStrip(content) + (SEPARATOR + m) == RStrip(content) + "\n\n" + m;
    }
  }

  // ---------------------------------------------------------------- work paths

  /** The path lies in a directory of generated images; a web address never does. */
  ghost predicate InWork(path: string, expand: string -> string) {
    exists shown, front, rest :: Forward(expand(Strip(path)), shown) && shown == front + ("/.capdep/work/images/" + rest)
      && !("http://" <= shown) && !("https://" <= shown)
  }

  /** The same text with forward slashes. */
  ghost predicate Forward(s: string, t: string) {
    |t| == |s| && forall i :: 0 <= i < |s| ==> t[i] == if s[i] == '\\' then '/' else s[i]
  }

  lemma ForwardIff(s: string, t: string)
    ensures Forward(s, t) <==> t == ReplaceBackslashes(s)
  {
  }

  lemma ContainsIff(s: string, part: string)
    ensures Contains(s, part) <==> exists front, rest :: s == front + (part + rest)
  {
    if i :| 0 <= i <= |s| && part <= s[i..] {
      assert s == s[..i] + (part + s[i..][|part|..]);
    }
    if front, rest :| s == front + (part + rest) {
      assert s[|front|..] == part + rest;
    }
  }

  lemma WorkIff(path: string, expand: string -> string)
    ensures IsWorkPath(path, expand) <==> InWork(path, expand)
  {
    var shown := ReplaceBackslashes(expand(Strip(path)));
    ForwardIff(expand(Strip(path)), shown);
    ContainsIff(shown, "/.capdep/work/images/");
    forall t ensures Forward(expand(Strip(path)), t) <==> t == shown { ForwardIff(expand(Strip(path)), t); }
  }

  /** q is a work path that the text shows. */
  ghost predicate ShowsWork(content: string, q: string, expand: string -> string) {
    exists p :: p in Paths(content) && InWork(p, expand) && q == expand(Strip(p))
  }

  lemma ShowsWorkIff(content: string, q: string, expand: string -> string)
    ensures q in Cited(content, expand) <==> ShowsWork(content, q, expand)
  {
    forall p ensures IsWorkPath(p, expand) <==> InWork(p, expand) { WorkIff(p, expand); }
  }

  /** An answer is taken for hallucinated exactly if it shows a work path and: nothing is allowed, or it shows one that is
      not allowed, or it shows only earlier ones although an allowed one is missing. */
  lemma HallucinatedIff(content: string, prior: set<string>, allowed: set<string>, expand: string -> string)
    ensures Hallucinated(content, prior, allowed, expand) <==>
      (exists q :: ShowsWork(content, q, expand))
      && (|| allowed == {}
          || (exists q :: ShowsWork(content, q, expand) && forall a :: a in allowed ==> expand(Strip(a)) != q)
          || ((forall q :: ShowsWork(content, q, expand) ==> q in prior)
              && exists a :: a in allowed && !ShowsWork(content, expand(Strip(a)), expand)))
  {
    var cited, allowedNorm := Cited(content, expand), NormSet(allowed, expand);
    forall q ensures q in cited <==> ShowsWork(content, q, expand) { ShowsWorkIff(content, q, expand); }
    forall q ensures q in allowedNorm <==> exists a :: a in allowed && expand(Strip(a)) == q {
      if a :| a in allowed && expand(Strip(a)) == q { assert Norm(a, expand) == q; }
    }
    if x :| x in allowedNorm - cited {
      var a :| a in allowed && expand(Strip(a)) == x;
    }
    forall a | a in allowed && !ShowsWork(content, expand(Strip(a)), expand) ensures expand(Strip(a)) in allowedNorm - cited {}
  }
}
