/**
 * The styling pass of `parseMarkdown` in `markdownLoader.ts`: the HTML that the
 * Markdown library produced goes through a fixed chain of global replacements,
 * each of which turns a bare opening tag such as `<h1>` into the same tag with
 * a `class` attribute. The last replacement of the chain gives a `<code>`
 * directly inside a `<pre>` a second set of classes.
 */
module Render {
  import opened Strings

  /** A character of an HTML tag name as it appears in the chain: a lower-case letter or a digit. */
  predicate NameChar(c: char) {
    'a' <= c <= 'z' || '0' <= c <= '9'
  }

  type TagName = n: string | |n| > 0 && forall i :: 0 <= i < |n| ==> NameChar(n[i]) witness "p"

  /** No `<` anywhere in `s`. */
  predicate NoOpen(s: string) {
    forall i :: 0 <= i < |s| ==> s[i] != '<'
  }

  /** No `/` anywhere in `s`. */
  predicate NoSlash(s: string) {
    forall i :: 0 <= i < |s| ==> s[i] != '/'
  }

  /** One CSS class of a `class` attribute; all that matters here is that it holds no `<` and no `/`. */
  type ClassName = c: string | NoOpen(c) && NoSlash(c) witness ""

  /** The opening tag without attributes, `<name>`. */
  function Bare(n: TagName): (t: string)
    ensures |t| == |n| + 2 && t[0] == '<' && NoOpen(t[1..])
  {
    "<" + n + ">"
  }

  /** ` class="c1 c2 …"`. */
  function ClassAttr(classes: seq<ClassName>): (a: string)
    ensures NoOpen(a) && NoSlash(a)
  {
    JoinClean(classes);
    " class=\"" + Join(classes, " ") + "\""
  }

  lemma {:induction false} JoinClean(classes: seq<ClassName>)
    ensures NoOpen(Join(classes, " ")) && NoSlash(Join(classes, " "))
    decreases |classes|
  {
    if |classes| > 1 {
      JoinClean(classes[1..]);
    }
  }

  /** `<name class="…"`: an opening tag with a class attribute, not yet closed by `>`. */
  function TagStart(n: TagName, classes: seq<ClassName>): (t: string)
    ensures |t| > |n| + 1 && t[0] == '<' && t[1..|n| + 1] == n && t[|n| + 1] == ' ' && NoOpen(t[1..])
  {
    var t := "<" + n + ClassAttr(classes);
    assert t[1..] == n + ClassAttr(classes);
    t
  }

  /** `<name class="…">`. */
  function Open(n: TagName, classes: seq<ClassName>): string {
    TagStart(n, classes) + ">"
  }

  /**
   * One step of the chain. `Tag(n, cs)` is `.replace(/<n>/g, '<n class="cs">')`;
   * `CodeInPre(ps, cs)` is the last step, which appends a class attribute to a
   * `<code` that directly follows the already-styled `<pre class="ps">`.
   */
  datatype Rule =
    | Tag(name: TagName, classes: seq<ClassName>)
    | CodeInPre(preClasses: seq<ClassName>, codeClasses: seq<ClassName>)

  function Pattern(rule: Rule): (p: string)
    ensures |p| > 0 && p[0] == '<'
  {
    match rule
    case Tag(n, _) => Bare(n)
    case CodeInPre(pre, _) => Open("pre", pre) + "<code"
  }

  /**
   * Every pattern holds no `/` and does not end with `<`; so none can begin
   * or end inside a closing tag `</…>`.
   */
  lemma PatternShape(rule: Rule)
    ensures var p := Pattern(rule); NoSlash(p) && p[|p| - 1] != '<'
  {
    match rule
    case Tag(n, _) =>
      assert Bare(n) == "<" + n + ">";
    case CodeInPre(pre, _) =>
      var t := TagStart("pre", pre);
      assert t == "<" + "pre" + ClassAttr(pre);
      var p := t + ">" + "<code";
      assert forall i :: |t| <= i < |p| ==> p[i] in ">" + "<code";
  }

  function Replacement(rule: Rule): (r: string)
    ensures |r| > 0 && r[0] == '<'
  {
    match rule
    case Tag(n, classes) => Open(n, classes)
    case CodeInPre(pre, code) => Open("pre", pre) + TagStart("code", code)
  }

  /** The rules applied one after the other, the first rule first. */
  function Apply(rules: seq<Rule>, html: string): string
    decreases |rules|
  {
    if |rules| == 0 then html
    else
      var last := rules[|rules| - 1];
      ReplaceAll(Apply(rules[..|rules| - 1], html), Pattern(last), Replacement(last))
  }

  // The utility classes the chain uses.
  const Text4xl: ClassName := "text-4xl"
  const Text3xl: ClassName := "text-3xl"
  const Text2xl: ClassName := "text-2xl"
  const TextXl: ClassName := "text-xl"
  const TextLg: ClassName := "text-lg"
  const TextBase: ClassName := "text-base"
  const TextSm: ClassName := "text-sm"
  const TextLeft: ClassName := "text-left"
  const TextMutedForeground: ClassName := "text-muted-foreground"
  const FontBold: ClassName := "font-bold"
  const FontElectric: ClassName := "font-electric"
  const FontElectrolize: ClassName := "font-electrolize"
  const FontMono: ClassName := "font-mono"
  const Italic: ClassName := "italic"
  const LeadingRelaxed: ClassName := "leading-relaxed"
  const Mb2: ClassName := "mb-2"
  const Mb3: ClassName := "mb-3"
  const Mb4: ClassName := "mb-4"
  const Mb6: ClassName := "mb-6"
  const P4: ClassName := "p-4"
  const Pl4: ClassName := "pl-4"
  const Px1: ClassName := "px-1"
  const Px4: ClassName := "px-4"
  const Py05: ClassName := "py-0.5"
  const Py2: ClassName := "py-2"
  const SpaceY2: ClassName := "space-y-2"
  const ListDisc: ClassName := "list-disc"
  const ListDecimal: ClassName := "list-decimal"
  const ListInside: ClassName := "list-inside"
  const Border: ClassName := "border"
  const BorderBorder: ClassName := "border-border"
  const BorderL4: ClassName := "border-l-4"
  const BorderAccent: ClassName := "border-accent"
  const BorderCollapse: ClassName := "border-collapse"
  const WFull: ClassName := "w-full"
  const BgMuted: ClassName := "bg-muted"
  const Rounded: ClassName := "rounded"
  const OverflowXAuto: ClassName := "overflow-x-auto"

  const H1Classes: seq<ClassName> := [Text4xl, FontBold, Mb6, FontElectric]
  const H2Classes: seq<ClassName> := [Text3xl, FontBold, Mb4, FontElectric]
  const H3Classes: seq<ClassName> := [Text2xl, FontBold, Mb3, FontElectric]
  const H4Classes: seq<ClassName> := [TextXl, FontBold, Mb2, FontElectric]
  const H5Classes: seq<ClassName> := [TextLg, FontBold, Mb2, FontElectric]
  const H6Classes: seq<ClassName> := [TextBase, FontBold, Mb2, FontElectric]
  const ParagraphClasses: seq<ClassName> := [Mb4, LeadingRelaxed, FontElectrolize]
  const BulletListClasses: seq<ClassName> := [ListDisc, ListInside, Mb4, SpaceY2, FontElectrolize]
  const NumberedListClasses: seq<ClassName> := [ListDecimal, ListInside, Mb4, SpaceY2, FontElectrolize]
  const ListItemClasses: seq<ClassName> := [LeadingRelaxed]
  const QuoteClasses: seq<ClassName> := [BorderL4, BorderAccent, Pl4, Mb4, Italic, TextMutedForeground, FontElectrolize]
  const TableClasses: seq<ClassName> := [WFull, BorderCollapse, Border, BorderBorder, Mb4]
  const HeaderCellClasses: seq<ClassName> := [Border, BorderBorder, Px4, Py2, BgMuted, FontBold, TextLeft, FontElectrolize]
  const DataCellClasses: seq<ClassName> := [Border, BorderBorder, Px4, Py2, FontElectrolize]
  const CodeClasses: seq<ClassName> := [BgMuted, Px1, Py05, Rounded, TextSm, FontMono]
  const PreClasses: seq<ClassName> := [BgMuted, P4, Rounded, Mb4, OverflowXAuto]
  const CodeInPreClasses: seq<ClassName> := [FontMono, TextSm]

  /** The sixteen tags the chain styles, in the order of the chain. */
  const StyledTags: seq<TagName> := HeadingTags + BlockTags + TableTags + CodeTags

  const HeadingTags: seq<TagName> := ["h1", "h2", "h3", "h4", "h5", "h6"]
  const BlockTags: seq<TagName> := ["p", "ul", "ol", "li", "blockquote"]
  const TableTags: seq<TagName> := ["table", "th", "td"]
  const CodeTags: seq<TagName> := ["code", "pre"]

  /** The classes each of them gets. */
  const StyledClasses: seq<seq<ClassName>> := [
    H1Classes, H2Classes, H3Classes, H4Classes, H5Classes, H6Classes,
    ParagraphClasses, BulletListClasses, NumberedListClasses, ListItemClasses, QuoteClasses,
    TableClasses, HeaderCellClasses, DataCellClasses, CodeClasses, PreClasses
  ]

  const CodeInPreRule: Rule := CodeInPre(PreClasses, CodeInPreClasses)

  /**
   * The chain of `parseMarkdown`, in source order: one `Tag` rule per styled
   * tag, then the rule for `<code` inside a styled `<pre>`.
   */
  const Rules: seq<Rule> := TagRules(16) + [CodeInPreRule]

  /** The `Tag` rules of the first `n` styled tags. */
  function TagRules(n: nat): (rules: seq<Rule>)
    requires n <= |StyledTags| && n <= |StyledClasses|
    ensures |rules| == n && forall i :: 0 <= i < n ==> rules[i] == Tag(StyledTags[i], StyledClasses[i])
  {
    if n == 0 then [] else TagRules(n - 1) + [Tag(StyledTags[n - 1], StyledClasses[n - 1])]
  }

  /** The class-injection pass of `parseMarkdown` on the HTML the Markdown library returned. */
  function InjectClasses(html: string): string {
    Apply(Rules, html)
  }

  /** Rule `i` of the chain styles tag `i` of `StyledTags`. */
  lemma RulesStyleTags()
    ensures |Rules| == |StyledTags| + 1
    ensures forall i :: 0 <= i < |StyledTags| ==> Pattern(Rules[i]) == Bare(StyledTags[i])
  {
  }

  /**
   * Whatever follows `r`, an occurrence of `p` in `r + b` lies inside `b`: `r`
   * neither contains `p` nor starts one that `b` could finish.
   */
  ghost predicate Shields(r: string, p: string) {
    forall b :: Contains(r + b, p) ==> Contains(b, p)
  }

  /** An occurrence of `p` in `a + b` that starts at or after `|a|` is one in `b`. */
  lemma OccurrenceInRight(a: string, b: string, p: string, j: nat)
    requires |a| <= j <= |a + b| && StartsWith((a + b)[j..], p)
    ensures Contains(b, p)
  {
    assert (a + b)[j..] == b[j - |a|..];
  }

  /** Text without `<` shields every tag. */
  lemma ShieldsText(t: string, p: string)
    requires NoOpen(t) && |p| > 0 && p[0] == '<'
    ensures Shields(t, p)
  {
    forall b | Contains(t + b, p) ensures Contains(b, p) {
      var j :| 0 <= j <= |t + b| && StartsWith((t + b)[j..], p);
      assert j >= |t|;
      OccurrenceInRight(t, b, p, j);
    }
  }

  /** A string that starts with `<n ` does not start with any bare tag. */
  lemma NotBare(x: string, n: TagName, m: TagName)
    requires |x| > |n| + 1 && x[0] == '<' && x[1..|n| + 1] == n && x[|n| + 1] == ' '
    ensures !StartsWith(x, Bare(m))
  {
    var p := Bare(m);
    if |m| < |n| {
      assert x[|m| + 1] == n[|m|] != p[|m| + 1];
    } else if |m| == |n| {
      assert x[|m| + 1] != p[|m| + 1];
    } else {
      assert x[|n| + 1] != m[|n|] == p[|n| + 1];
    }
  }

  /** An opening tag with attributes shields every bare tag. */
  lemma ShieldsTagStart(n: TagName, classes: seq<ClassName>, m: TagName)
    ensures Shields(TagStart(n, classes), Bare(m))
  {
    var t := TagStart(n, classes);
    var p := Bare(m);
    forall b | Contains(t + b, p) ensures Contains(b, p) {
      var j :| 0 <= j <= |t + b| && StartsWith((t + b)[j..], p);
      if j == 0 {
        assert (t + b)[0..] == t + b;
        NotBare(t + b, n, m);
      } else {
        assert j >= |t|;
        OccurrenceInRight(t, b, p, j);
      }
    }
  }

  lemma ShieldsConcat(x: string, y: string, p: string)
    requires Shields(x, p) && Shields(y, p)
    ensures Shields(x + y, p)
  {
    forall b | Contains(x + y + b, p) ensures Contains(b, p) {
      assert x + y + b == x + (y + b);
    }
  }

  /** Every replacement of the chain shields every bare tag. */
  lemma ShieldsReplacement(rule: Rule, m: TagName)
    ensures Shields(Replacement(rule), Bare(m))
  {
    var p := Bare(m);
    match rule
    case Tag(n, classes) =>
      ShieldsTagStart(n, classes, m);
      ShieldsText(">", p);
      ShieldsConcat(TagStart(n, classes), ">", p);
    case CodeInPre(pre, code) =>
      ShieldsTagStart("pre", pre, m);
      ShieldsText(">", p);
      ShieldsConcat(TagStart("pre", pre), ">", p);
      ShieldsTagStart("code", code, m);
      ShieldsConcat(Open("pre", pre), TagStart("code", code), p);
  }

  /**
   * While the text has no `<`, a replacement whose pattern and replacement
   * both start with `<` copies it through: the first `k` characters survive,
   * and a `<` right after them is still a `<`.
   */
  lemma {:induction false} ReplaceAllFront(s: string, q: string, r: string, k: nat)
    requires |q| > 0 && q[0] == '<' && |r| > 0 && r[0] == '<'
    requires k <= |s| && NoOpen(s[..k])
    ensures var t := ReplaceAll(s, q, r);
      |t| >= k && t[..k] == s[..k] && (k < |s| && s[k] == '<' ==> |t| > k && t[k] == '<') && (k == |s| ==> t == s)
    decreases k
  {
    if k > 0 {
      assert s[0] == s[..k][0];
      assert !StartsWith(s, q);
      assert s[1..][..k - 1] == s[..k][1..];
      ReplaceAllFront(s[1..], q, r, k - 1);
    } else if |s| > 0 && s[0] == '<' {
      if StartsWith(s, q) {
        assert ReplaceAll(s, q, r) == r + ReplaceAll(s[|q|..], q, r);
      }
    }
  }

  /**
   * A `<` followed by the output of a replacement is not the start of a bare
   * tag unless the input already had that tag there.
   */
  lemma NoBareAtFront(s: string, q: string, r: string, m: TagName)
    requires |s| > 0 && s[0] == '<' && !StartsWith(s, Bare(m))
    requires |q| > 0 && q[0] == '<' && |r| > 0 && r[0] == '<'
    ensures !StartsWith([s[0]] + ReplaceAll(s[1..], q, r), Bare(m))
  {
    var p := Bare(m);
    var t := s[1..];
    var u := ReplaceAll(t, q, r);
    var x := [s[0]] + u;
    var n := |p| - 1;
    var k := match IndexOfChar(t, '<') case None => |t| case Some(i) => i;
    assert NoOpen(t[..k]);
    if StartsWith(x, p) {
      assert u[..n] == x[1..|p|] == p[1..];
      if k >= n {
        ReplaceAllFront(t, q, r, n);
      } else {
        ReplaceAllFront(t, q, r, k);
      }
    }
  }

  lemma ContainsOfSuffix(s: string, k: nat, p: string)
    requires k <= |s| && Contains(s[k..], p)
    ensures Contains(s, p)
  {
    var j :| 0 <= j <= |s[k..]| && StartsWith(s[k..][j..], p);
    assert s[k..][j..] == s[k + j..];
  }

  /**
   * A replacement whose replacement shields `<m>` leaves no `<m>` behind when
   * it replaces `<m>` itself, and brings in none when the input had none.
   */
  lemma {:induction false} ReplaceAllClears(s: string, q: string, r: string, m: TagName)
    requires |q| > 0 && q[0] == '<' && |r| > 0 && r[0] == '<' && Shields(r, Bare(m))
    requires q == Bare(m) || !Contains(s, Bare(m))
    ensures !Contains(ReplaceAll(s, q, r), Bare(m))
    decreases |s|
  {
    var p := Bare(m);
    if |s| == 0 {
      assert !StartsWith(""[0..], p);
    } else if StartsWith(s, q) {
      if q != p && Contains(s[|q|..], p) {
        ContainsOfSuffix(s, |q|, p);
      }
      ReplaceAllClears(s[|q|..], q, r, m);
    } else {
      ContainsStep(s, p);
      ReplaceAllClears(s[1..], q, r, m);
      var x := [s[0]] + ReplaceAll(s[1..], q, r);
      assert x[1..] == ReplaceAll(s[1..], q, r);
      if s[0] == '<' {
        NoBareAtFront(s, q, r, m);
      }
      ContainsStep(x, p);
    }
  }

  /** Once a rule of the list has replaced `<m>`, no later rule brings it back. */
  lemma {:induction false} ApplyClears(rules: seq<Rule>, html: string, m: TagName, i: nat)
    requires i < |rules| && Pattern(rules[i]) == Bare(m)
    ensures !Contains(Apply(rules, html), Bare(m))
    decreases |rules|
  {
    var last := rules[|rules| - 1];
    ShieldsReplacement(last, m);
    if i < |rules| - 1 {
      ApplyClears(rules[..|rules| - 1], html, m, i);
    }
    ReplaceAllClears(Apply(rules[..|rules| - 1], html), Pattern(last), Replacement(last), m);
  }

  /** After the chain, none of the sixteen bare opening tags is left. */
  lemma NoBareTagRemains(html: string)
    ensures forall i :: 0 <= i < |StyledTags| ==> !Contains(InjectClasses(html), Bare(StyledTags[i]))
  {
    RulesStyleTags();
    forall i | 0 <= i < |StyledTags| ensures !Contains(InjectClasses(html), Bare(StyledTags[i])) {
      ApplyClears(Rules, html, StyledTags[i], i);
    }
  }

  /** Text in which no rule finds its pattern comes out of the chain unchanged. */
  lemma {:induction false} ApplyAbsent(rules: seq<Rule>, html: string)
    requires forall i :: 0 <= i < |rules| ==> !Contains(html, Pattern(rules[i]))
    ensures Apply(rules, html) == html
    decreases |rules|
  {
    if |rules| > 0 {
      ApplyAbsent(rules[..|rules| - 1], html);
      ReplaceAllAbsent(html, Pattern(rules[|rules| - 1]), Replacement(rules[|rules| - 1]));
    }
  }

  /** A pattern that starts with `<` does not occur in text without `<`. */
  lemma NoOpenContainsNothing(s: string, p: string)
    requires NoOpen(s) && |p| > 0 && p[0] == '<'
    ensures !Contains(s, p)
  {
  }

  /**
   * HTML in which none of the sixteen bare opening tags and no styled
   * `<pre>` directly followed by `<code` occurs (closing tags, tags with
   * attributes and text are fine) is returned unchanged.
   */
  lemma UntouchedWithoutBareTags(html: string)
    requires forall i :: 0 <= i < |StyledTags| ==> !Contains(html, Bare(StyledTags[i]))
    requires !Contains(html, Pattern(CodeInPreRule))
    ensures InjectClasses(html) == html
  {
    RulesStyleTags();
    ApplyAbsent(Rules, html);
  }

  /** HTML without any `<` is returned unchanged. */
  lemma UntouchedWithoutTags(html: string)
    requires NoOpen(html)
    ensures InjectClasses(html) == html
  {
    forall i | 0 <= i < |Rules| ensures !Contains(html, Pattern(Rules[i])) {
      NoOpenContainsNothing(html, Pattern(Rules[i]));
    }
    ApplyAbsent(Rules, html);
  }

  /** A closing tag `</name>`. */
  function Closing(n: string): string {
    "</" + n + ">"
  }

  /** A pattern of the chain that reaches into a closing tag would have to hold `/` or end with `<`. */
  lemma ClosingNoSpanLeft(a: string, n: string, b: string, p: string)
    requires NoOpen(n) && |p| > 0 && p[0] == '<' && NoSlash(p) && p[|p| - 1] != '<'
    ensures NoSpan(a, Closing(n) + b, p)
  {
    var s := a + (Closing(n) + b);
    forall j | 0 <= j < |a| < j + |p| ensures !StartsWith(s[j..], p) {
      var k := |a| - j;
      assert s[j..][k] == '<' && s[j..][k + 1] == '/';
    }
  }

  /** Inside a closing tag only its first character is `<`, and it is followed by `/`. */
  lemma NoPatternInClosing(n: string, b: string, p: string, j: nat)
    requires NoOpen(n) && |p| > 0 && p[0] == '<' && NoSlash(p) && p[|p| - 1] != '<'
    requires j < |Closing(n)|
    ensures !StartsWith((Closing(n) + b)[j..], p)
  {
    var c := Closing(n);
    var s := c + b;
    if j == 0 {
      assert s[j..][1] == '/';
    } else if j == 1 || j == |c| - 1 {
      assert s[j..][0] != '<';
    } else {
      assert s[j..][0] == n[j - 2];
    }
  }

  /** No pattern of the chain occurs in a closing tag or starts in one. */
  lemma ClosingClean(n: string, b: string, p: string)
    requires NoOpen(n) && |p| > 0 && p[0] == '<' && NoSlash(p) && p[|p| - 1] != '<'
    ensures NoSpan(Closing(n), b, p) && !Contains(Closing(n), p)
  {
    var c := Closing(n);
    forall j | 0 <= j < |c| < j + |p| ensures !StartsWith((c + b)[j..], p) {
      NoPatternInClosing(n, b, p, j);
    }
    forall j | 0 <= j <= |c| ensures !StartsWith(c[j..], p) {
      if j < |c| {
        NoPatternInClosing(n, [], p, j);
        assert c + [] == c;
      }
    }
  }

  /** A global replace of a chain pattern treats the text on either side of a closing tag separately. */
  lemma ReplaceAllAroundClosing(a: string, n: string, b: string, p: string, r: string)
    requires NoOpen(n) && |p| > 0 && p[0] == '<' && NoSlash(p) && p[|p| - 1] != '<'
    ensures ReplaceAll(a + Closing(n) + b, p, r) == ReplaceAll(a, p, r) + Closing(n) + ReplaceAll(b, p, r)
  {
    var c := Closing(n);
    ClosingNoSpanLeft(a, n, b, p);
    ClosingClean(n, b, p);
    assert a + c + b == a + (c + b);
    ReplaceAllSplit(a, c + b, p, r);
    ReplaceAllSplit(c, b, p, r);
    ReplaceAllAbsent(c, p, r);
  }

  /** Rules of the chain treat the text on either side of a closing tag separately. */
  lemma {:induction false} ApplyAroundClosing(rules: seq<Rule>, a: string, n: string, b: string)
    requires NoOpen(n)
    ensures Apply(rules, a + Closing(n) + b) == Apply(rules, a) + Closing(n) + Apply(rules, b)
    decreases |rules|
  {
    if |rules| > 0 {
      var init := rules[..|rules| - 1];
      var last := rules[|rules| - 1];
      ApplyAroundClosing(init, a, n, b);
      PatternShape(last);
      ReplaceAllAroundClosing(Apply(init, a), n, Apply(init, b), Pattern(last), Replacement(last));
    }
  }

  /**
   * A closing tag passes through the chain untouched, and the HTML on either
   * side of it is styled as if the other side were not there.
   */
  lemma ClosingTagUntouched(a: string, n: string, b: string)
    requires NoOpen(n)
    ensures InjectClasses(a + "</" + n + ">" + b) == InjectClasses(a) + "</" + n + ">" + InjectClasses(b)
  {
    ApplyAroundClosing(Rules, a, n, b);
    ClosingSpelled(a, n, b);
    ClosingSpelled(InjectClasses(a), n, InjectClasses(b));
  }

  lemma ClosingSpelled(a: string, n: string, b: string)
    ensures a + "</" + n + ">" + b == a + Closing(n) + b
  {
  }

  /** Two bare tags at the same place are the same tag. */
  lemma BareAtBare(x: string, n: TagName, m: TagName)
    requires StartsWith(x, Bare(n)) && StartsWith(x, Bare(m))
    ensures n == m
  {
    assert x[..|n| + 2] == Bare(n) && x[..|m| + 2] == Bare(m);
    assert Bare(n)[|n| + 1] == '>' && Bare(m)[|m| + 1] == '>';
    if |m| == |n| {
      assert n == x[1..|n| + 1] == m;
    }
  }

  /** A different bare tag does not occur in `<n>`, nor does one start inside it. */
  lemma BareClean(n: TagName, m: TagName, u: string)
    requires n != m
    ensures NoSpan(Bare(n), u, Bare(m)) && !Contains(Bare(n), Bare(m))
  {
    var t := Bare(n);
    forall j | 0 <= j < |t| ensures !StartsWith((t + u)[j..], Bare(m)) {
      BareNotAt(n, m, u, j);
    }
    forall j | 0 <= j < |t| ensures !StartsWith(t[j..], Bare(m)) {
      BareNotAt(n, m, [], j);
      assert t + [] == t;
    }
  }

  lemma BareNotAt(n: TagName, m: TagName, u: string, j: nat)
    requires n != m && j < |Bare(n)|
    ensures !StartsWith((Bare(n) + u)[j..], Bare(m))
  {
    var t := Bare(n);
    if j == 0 {
      assert (t + u)[..|t|] == t;
      assert (t + u)[0..] == t + u;
      if StartsWith(t + u, Bare(m)) {
        BareAtBare(t + u, n, m);
      }
    } else {
      assert (t + u)[j..][0] == t[1..][j - 1];
    }
  }

  /** Replacing `<m>` passes over a leading `<n>` of another name. */
  lemma ReplaceAllPastBare(n: TagName, m: TagName, u: string, r: string)
    requires n != m
    ensures ReplaceAll(Bare(n) + u, Bare(m), r) == Bare(n) + ReplaceAll(u, Bare(m), r)
  {
    BareClean(n, m, u);
    ReplaceAllSplit(Bare(n), u, Bare(m), r);
    ReplaceAllAbsent(Bare(n), Bare(m), r);
  }

  /** The only bare tags in `<n1><n2>` followed by text are `<n1>` and `<n2>`. */
  lemma BareOccurrences(n1: TagName, n2: TagName, rest: string, m: TagName)
    requires NoOpen(rest) && Contains(Bare(n1) + Bare(n2) + rest, Bare(m))
    ensures m == n1 || m == n2
  {
    var b1, b2 := Bare(n1), Bare(n2);
    var s := b1 + b2 + rest;
    var p := Bare(m);
    var j :| 0 <= j <= |s| && StartsWith(s[j..], p);
    assert s[j] == '<';
    if j == 0 {
      assert s[..|b1|] == b1;
      BareAtBare(s, n1, m);
    } else if j == |b1| {
      assert s[j..][..|b2|] == b2;
      BareAtBare(s[j..], n2, m);
    }
  }

  /**
   * The last rule: a `<code class="…">` that the earlier rules produced right
   * after a styled `<pre>` ends up with two `class` attributes, the one of the
   * last rule first.
   */
  lemma CodeInPreDoublesClass(pre: seq<ClassName>, inner: seq<ClassName>, code: seq<ClassName>, rest: string)
    requires NoOpen(rest)
    ensures var rule := CodeInPre(pre, inner);
      ReplaceAll(Open("pre", pre) + Open("code", code) + rest, Pattern(rule), Replacement(rule))
      == Open("pre", pre) + "<code" + ClassAttr(inner) + ClassAttr(code) + ">" + rest
  {
    var rule := CodeInPre(pre, inner);
    var a, c, i := Open("pre", pre), ClassAttr(code), ClassAttr(inner);
    var tail := c + ">" + rest;
    OpenCode(code);
    Regroup(a, c, rest);
    ReplaceAllHit(Pattern(rule), tail, Replacement(rule));
    NoOpenAppend(c + ">", rest);
    NoOpenContainsNothing(tail, Pattern(rule));
    ReplaceAllAbsent(tail, Pattern(rule), Replacement(rule));
    CodeInPreReplacement(pre, inner);
    Regroup2(a, i, c, rest);
  }

  lemma OpenCode(code: seq<ClassName>)
    ensures Open("code", code) == "<code" + ClassAttr(code) + ">"
  {
  }

  lemma CodeInPreReplacement(pre: seq<ClassName>, inner: seq<ClassName>)
    ensures Replacement(CodeInPre(pre, inner)) == Open("pre", pre) + ("<code" + ClassAttr(inner))
  {
  }

  lemma Regroup(a: string, c: string, rest: string)
    ensures a + ("<code" + c + ">") + rest == (a + "<code") + (c + ">" + rest)
  {
  }

  lemma Regroup2(a: string, i: string, c: string, rest: string)
    ensures a + ("<code" + i) + (c + ">" + rest) == a + "<code" + i + c + ">" + rest
  {
  }

  lemma NoOpenAppend(x: string, y: string)
    requires NoOpen(x) && NoOpen(y)
    ensures NoOpen(x + y)
  {
  }

  /** `code` and `pre` are the last two styled tags, and come nowhere earlier. */
  lemma CodeAndPreLast()
    ensures |StyledTags| == 16 && StyledTags[14] == "code" && StyledTags[15] == "pre"
    ensures StyledClasses[14] == CodeClasses && StyledClasses[15] == PreClasses
    ensures forall i :: 0 <= i < 14 ==> StyledTags[i] != "pre" && StyledTags[i] != "code"
  {
    assert StyledTags[..14] == HeadingTags + BlockTags + TableTags;
    assert forall t :: t in HeadingTags + BlockTags + TableTags ==> t != "pre" && t != "code";
  }

  /** Tag rules for other tags leave `<n1><n2>` followed by text as it is. */
  lemma EarlyRulesSkip(n: nat, n1: TagName, n2: TagName, rest: string)
    requires n <= |StyledTags| && NoOpen(rest)
    requires forall i :: 0 <= i < n ==> StyledTags[i] != n1 && StyledTags[i] != n2
    ensures Apply(TagRules(n), Bare(n1) + Bare(n2) + rest) == Bare(n1) + Bare(n2) + rest
  {
    var s := Bare(n1) + Bare(n2) + rest;
    var rules := TagRules(n);
    forall i | 0 <= i < |rules| ensures !Contains(s, Pattern(rules[i])) {
      var m := StyledTags[i];
      assert Pattern(rules[i]) == Bare(m);
      if Contains(s, Bare(m)) {
        BareOccurrences(n1, n2, rest, m);
      }
    }
    ApplyAbsent(rules, s);
  }

  /** Adding the next tag rule adds one global replace at the end. */
  lemma ApplyTagStep(k: nat, html: string)
    requires k < |StyledTags|
    ensures Apply(TagRules(k + 1), html)
      == ReplaceAll(Apply(TagRules(k), html), Bare(StyledTags[k]), Open(StyledTags[k], StyledClasses[k]))
  {
    assert TagRules(k + 1)[..k] == TagRules(k);
  }

  /** The chain is the tag rules followed by the `<pre><code` rule. */
  lemma ApplyRules(html: string)
    ensures InjectClasses(html)
      == ReplaceAll(Apply(TagRules(16), html), Pattern(CodeInPreRule), Replacement(CodeInPreRule))
  {
    assert Rules[..16] == TagRules(16);
  }

  /** The rule for the second of two bare tags styles only that one. */
  lemma SecondTagRule(n1: TagName, n2: TagName, cs: seq<ClassName>, rest: string)
    requires n1 != n2 && NoOpen(rest)
    ensures ReplaceAll(Bare(n1) + Bare(n2) + rest, Bare(n2), Open(n2, cs)) == Bare(n1) + (Open(n2, cs) + rest)
  {
    var b2, o2 := Bare(n2), Open(n2, cs);
    assert Bare(n1) + b2 + rest == Bare(n1) + (b2 + rest);
    ReplaceAllPastBare(n1, n2, b2 + rest, o2);
    ReplaceAllHit(b2, rest, o2);
    NoOpenContainsNothing(rest, b2);
    ReplaceAllAbsent(rest, b2, o2);
  }

  /** The rule for the first tag then styles it, and leaves the styled second tag alone. */
  lemma FirstTagRule(n1: TagName, n2: TagName, cs1: seq<ClassName>, cs2: seq<ClassName>, rest: string)
    requires NoOpen(rest)
    ensures ReplaceAll(Bare(n1) + (Open(n2, cs2) + rest), Bare(n1), Open(n1, cs1)) == Open(n1, cs1) + Open(n2, cs2) + rest
  {
    var b1, o1, o2 := Bare(n1), Open(n1, cs1), Open(n2, cs2);
    ReplaceAllHit(b1, o2 + rest, o1);
    ShieldsReplacement(Tag(n2, cs2), n1);
    NoOpenContainsNothing(rest, b1);
    ReplaceAllAbsent(o2 + rest, b1, o1);
  }

  /**
   * `<pre><code>` through the whole chain: the `code` and `pre` rules style
   * both tags, and the last rule then gives the `<code>` a second `class`
   * attribute, in front of the first.
   */
  lemma CodeInPreGetsTwoClasses(rest: string)
    requires NoOpen(rest)
    ensures InjectClasses("<pre><code>" + rest)
      == Open("pre", PreClasses) + "<code" + ClassAttr(CodeInPreClasses) + ClassAttr(CodeClasses) + ">" + rest
  {
    var s := Bare("pre") + Bare("code") + rest;
    assert "<pre><code>" + rest == s;
    TagRulesOnPreCode(16, rest);
    ApplyRules(s);
    CodeInPreDoublesClass(PreClasses, CodeInPreClasses, CodeClasses, rest);
  }

  /** The tag rules up to that of `n2` style only the `<n2>` of `<n1><n2>`. */
  lemma SecondOfTwoTags(n: nat, n1: TagName, n2: TagName, rest: string)
    requires n < |StyledTags| && NoOpen(rest) && n1 != n2 && StyledTags[n] == n2
    requires forall i :: 0 <= i < n ==> StyledTags[i] != n1 && StyledTags[i] != n2
    ensures Apply(TagRules(n + 1), Bare(n1) + Bare(n2) + rest) == Bare(n1) + (Open(n2, StyledClasses[n]) + rest)
  {
    var s := Bare(n1) + Bare(n2) + rest;
    EarlyRulesSkip(n, n1, n2, rest);
    ApplyTagStep(n, s);
    SecondTagRule(n1, n2, StyledClasses[n], rest);
  }

  /** Then the rule of `n1` styles the `<n1>` as well. */
  lemma TwoTags(n: nat, n1: TagName, n2: TagName, rest: string)
    requires n + 1 < |StyledTags| && NoOpen(rest) && n1 != n2 && StyledTags[n] == n2 && StyledTags[n + 1] == n1
    requires forall i :: 0 <= i < n ==> StyledTags[i] != n1 && StyledTags[i] != n2
    ensures Apply(TagRules(n + 2), Bare(n1) + Bare(n2) + rest)
      == Open(n1, StyledClasses[n + 1]) + Open(n2, StyledClasses[n]) + rest
  {
    SecondOfTwoTags(n, n1, n2, rest);
    ApplyTagStep(n + 1, Bare(n1) + Bare(n2) + rest);
    FirstTagRule(n1, n2, StyledClasses[n + 1], StyledClasses[n], rest);
  }

  /** The sixteen tag rules turn `<pre><code>` into the two styled opening tags. */
  lemma TagRulesOnPreCode(n: nat, rest: string)
    requires n == |StyledTags| && NoOpen(rest)
    ensures Apply(TagRules(n), Bare("pre") + Bare("code") + rest) == Open("pre", PreClasses) + Open("code", CodeClasses) + rest
  {
    CodeAndPreLast();
    TwoTags(n - 2, "pre", "code", rest);
  }
}
