/** Link normalisation of a generated page (`_format_page`). A page is seen
    through its parse tree, flattened to the sequence of its nodes: anchors,
    which carry an optional `href` attribute, and everything else. */
module Links {
  import opened Wrappers
  import opened Strings

  datatype Node = Markup(text: string) | Anchor(href: Option<string>)

  type Document = seq<Node>

  const Mailto := "mailto:"
  const Http := "http://"
  const Https := "https://"

  /** Every anchor has an `href`; reading the attribute of one without it
      raises `KeyError`, so the rewrite is only defined on such documents. */
  predicate WellFormed(doc: Document) {
    forall i | 0 <= i < |doc| :: doc[i].Anchor? ==> doc[i].href.Some?
  }

  /** Every anchor stays inside the simulated web: its target is rooted at
      the server, or it is a mail link. */
  predicate Rooted(doc: Document) {
    forall i | 0 <= i < |doc| :: doc[i].Anchor? ==>
      doc[i].href.Some? && (Contains(doc[i].href.value, Mailto) || StartsWith(doc[i].href.value, "/"))
  }

  /** Removes every `http://`, then every `https://`. */
  function StripSchemes(h: string): string {
    ReplaceAll(ReplaceAll(h, Http, ""), Https, "")
  }

  /** The rule applied to one `href`. A mail link is kept; any other target
      loses its scheme markers and is put under the server root. The result
      equals the input exactly for mail links, so a second application always
      changes a rooted link again. */
  function RewriteHref(h: string): (r: string)
    ensures r == h <==> Contains(h, Mailto)
    ensures !Contains(h, Mailto) ==> StartsWith(r, "/")
  {
    if Contains(h, Mailto) then h else "/" + StripSchemes(h)
  }

  /** The rewrite agrees with the split-and-join reference: the target with
      `http://` split out and rejoined, then `https://` split out and
      rejoined, under a leading slash. */
  lemma RewriteMatchesSplitJoin(h: string)
    requires !Contains(h, Mailto)
    ensures RewriteHref(h) == "/" + Join(Split(Join(Split(h, Http), ""), Https), "")
  {
    ReplaceAllIsJoinOfSplit(h, Http, "");
    ReplaceAllIsJoinOfSplit(ReplaceAll(h, Http, ""), Https, "");
  }

  function FormatNode(n: Node): Node
    requires n.Anchor? ==> n.href.Some?
  {
    match n
    case Markup(_) => n
    case Anchor(h) => Anchor(Some(RewriteHref(h.value)))
  }

  /** `_format_page`: every anchor's `href` is rewritten in place; all other
      markup, and the order and number of nodes, are kept. */
  function FormatPage(doc: Document): (r: Document)
    requires WellFormed(doc)
    ensures |r| == |doc|
    ensures forall i | 0 <= i < |doc| :: doc[i].Markup? ==> r[i] == doc[i]
    ensures forall i | 0 <= i < |doc| :: doc[i].Anchor? ==>
      r[i] == Anchor(Some(RewriteHref(doc[i].href.value)))
    ensures Rooted(r)
    decreases |doc|
  {
    if |doc| == 0 then []
    else [FormatNode(doc[0])] + FormatPage(doc[1..])
  }

  /** A rooted document is well formed, so it can be formatted again. */
  lemma RootedIsWellFormed(doc: Document)
    requires Rooted(doc)
    ensures WellFormed(doc)
  {
  }

  /** `mailto:` protects a link wherever it occurs in the target, not only
      as its scheme. */
  lemma MailtoAnywhereIsKept(before: string, after: string)
    ensures RewriteHref(before + Mailto + after) == before + Mailto + after
  {
    var h := before + Mailto + after;
    assert h[|before|..|before| + |Mailto|] == Mailto;
    assert OccursAt(h, Mailto, |before|);
    ContainsIffOccurs(h, Mailto);
  }

  /** Formatting is not idempotent: formatting an already formatted page
      roots every non-mail link a second time. This is why a cached page must
      be returned as stored, never passed through `FormatPage` again. */
  lemma FormatTwiceRootsAgain(doc: Document, i: nat)
    requires WellFormed(doc) && i < |doc| && doc[i].Anchor?
    requires !Contains(RewriteHref(doc[i].href.value), Mailto)
    ensures Rooted(FormatPage(doc))
    ensures FormatPage(FormatPage(doc))[i].href.value == "/" + StripSchemes(FormatPage(doc)[i].href.value)
    ensures FormatPage(FormatPage(doc)) != FormatPage(doc)
  {
    var once := FormatPage(doc);
    RootedIsWellFormed(once);
    var twice := FormatPage(once);
    assert twice[i].href.value != once[i].href.value;
  }

  /** A target free of `mailto:` and of both scheme markers is only rooted. */
  lemma PlainTargetIsRooted(h: string)
    requires !Contains(h, Mailto) && !Contains(h, Http) && !Contains(h, Https)
    ensures RewriteHref(h) == "/" + h
  {
  }

  /** A target that is `http://` followed by a plain remainder loses the
      scheme and is rooted. */
  lemma SchemeTargetIsRooted(rest: string)
    requires !Contains(Http + rest, Mailto) && !Contains(rest, Http) && !Contains(rest, Https)
    ensures RewriteHref(Http + rest) == "/" + rest
  {
    StripsLeadingScheme(rest);
  }

  lemma StripsLeadingScheme(rest: string)
    requires !Contains(rest, Http) && !Contains(rest, Https)
    ensures StripSchemes(Http + rest) == rest
  {
    ReplaceAllHits(Http, rest, "");
    assert ReplaceAll(Http + rest, Http, "") == ReplaceAll(rest, Http, "");
  }

  /** `http://` followed by a remainder without a colon or an `i` (so no
      marker can occur anywhere) loses the scheme and is rooted. */
  lemma PlainUrlLosesScheme(rest: string)
    requires ':' !in rest && 'i' !in rest
    ensures RewriteHref(Http + rest) == "/" + rest
  {
    LacksChar(Http + rest, Mailto, 2);
    LacksChar(rest, Http, 4);
    LacksChar(rest, Https, 5);
    SchemeTargetIsRooted(rest);
  }

  /** A full URL loses its scheme and is put under the server root:
      `http://foo.com/bar` becomes `/foo.com/bar`. */
  lemma FullUrlLosesScheme()
    // The literal is let-bound so the solver does not unfold the string
    // functions over it character by character.
    ensures var rest := "foo.com/bar"; RewriteHref(Http + rest) == "/" + rest
  {
    PlainUrlLosesScheme("foo.com/bar");
  }

  /** A mail link is kept as it is. */
  lemma MailLinkKept()
    ensures RewriteHref("mailto:a@b.com") == "mailto:a@b.com"
  {
    MailtoAnywhereIsKept("", "a@b.com");
    assert "" + Mailto + "a@b.com" == "mailto:a@b.com";
  }

  /** An already rooted path is rooted again, doubling its leading slash:
      `/already/rooted` becomes `//already/rooted`. */
  lemma RootedPathDoubled()
    // The literal is let-bound so the solver does not unfold the string
    // functions over it character by character.
    ensures var h := "/already/rooted"; RewriteHref(h) == "/" + h
  {
    ColonFreeTargetIsRooted("/already/rooted");
  }

  /** Every marker the rewrite looks for holds a colon, so a target without
      one is only rooted. */
  lemma ColonFreeTargetIsRooted(h: string)
    requires ':' !in h
    ensures RewriteHref(h) == "/" + h
  {
    LacksChar(h, Mailto, 6);
    LacksChar(h, Http, 4);
    LacksChar(h, Https, 5);
    PlainTargetIsRooted(h);
  }
}
