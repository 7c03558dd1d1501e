/**
 * Frontmatter splitting (`parseFrontmatter` in `markdownLoader.ts`): a
 * document optionally starts with a block fenced by `---` lines; the block is
 * decoded into a map and the rest is the markdown body.
 *
 * The two regular expressions of the source are modelled as scanners over
 * positions of the trimmed document. Each scanner's contract says which texts
 * the pattern matches (the `...Shape` predicates) and which of the possible
 * matches JavaScript's backtracking engine reports: greedy quantifiers try the
 * longest run first, the lazy group the shortest.
 */
module Frontmatter {
  import opened Wrappers
  import opened Strings
  import opened YamlLike

  /** The result of `parseFrontmatter`: `{ frontmatter, content }`. */
  datatype Parsed = Parsed(frontmatter: map<string, string>, content: string)

  /** `---` starts at position `i`. */
  predicate FenceAt(t: string, i: nat) {
    i + 3 <= |t| && t[i] == '-' && t[i + 1] == '-' && t[i + 2] == '-'
  }

  lemma FenceAtStart(t: string)
    ensures FenceAt(t, 0) <==> StartsWith(t, "---")
  {
    if |t| >= 3 {
      assert t[..3] == [t[0], t[1], t[2]];
    }
  }

  /** Every character of `t[i..j]` is whitespace (`\s*` matches it). */
  predicate SpaceSpan(t: string, i: nat, j: nat) {
    i <= j <= |t| && forall k :: i <= k < j ==> IsSpace(t[k])
  }

  /** `\s*[\r\n]+` matches `t[i..j]`. */
  predicate SpacesThenBreak(t: string, i: nat, j: nat) {
    i < j && SpaceSpan(t, i, j) && IsBreak(t[j - 1])
  }

  /** `[\r\n]+` matches `t[i..j]`. */
  predicate BreakSpan(t: string, i: nat, j: nat) {
    i < j <= |t| && forall k :: i <= k < j ==> IsBreak(t[k])
  }

  lemma SpaceRunIsMaximal(t: string, i: nat, j: nat)
    requires SpaceSpan(t, i, j)
    ensures j <= SpaceRunEnd(t, i)
  {
  }

  // ---------------------------------------------------------------------------
  // The strict pattern /^---\s*[\r\n]+([\s\S]*?)[\r\n]+---\s*[\r\n]+([\s\S]*)$/
  // ---------------------------------------------------------------------------

  /**
   * The strict pattern matches all of `t` with group 1 = `t[gs..ge]`, the
   * closing `---` at `c` and group 2 = `t[bs..]`.
   */
  predicate StrictShape(t: string, gs: nat, ge: nat, c: nat, bs: nat) {
    && 3 <= gs <= ge <= c && c + 3 <= bs <= |t|
    && FenceAt(t, 0)
    && SpacesThenBreak(t, 3, gs)
    && BreakSpan(t, ge, c)
    && FenceAt(t, c)
    && SpacesThenBreak(t, c + 3, bs)
  }

  /** Some way to match the strict pattern exists. */
  ghost predicate StrictMatches(t: string) {
    exists gs, ge, c, bs :: StrictShape(t, gs, ge, c, bs)
  }

  /**
   * The match the engine reports: among all ways to match, group 1 starts as
   * late as possible (the greedy `\s*[\r\n]+` before it), then ends as early as
   * possible (the lazy group), then group 2 starts as late as possible (the
   * greedy `\s*[\r\n]+` before it).
   */
  ghost predicate StrictChosen(t: string, gs: nat, ge: nat, c: nat, bs: nat) {
    && StrictShape(t, gs, ge, c, bs)
    && forall gs': nat, ge': nat, c': nat, bs': nat :: StrictShape(t, gs', ge', c', bs') ==>
         gs' <= gs && (gs' == gs ==> ge <= ge' && (ge' == ge ==> bs' <= bs))
  }

  /** The positions of one match of the strict pattern. */
  datatype StrictSpan = StrictSpan(gs: nat, ge: nat, c: nat, bs: nat)

  /** The last line break in `t[lo..hi]`. */
  function LastBreakIn(t: string, lo: nat, hi: nat): (r: Option<nat>)
    requires lo <= hi <= |t|
    ensures r.Some? ==> lo <= r.value < hi && IsBreak(t[r.value])
    ensures r.Some? ==> forall k :: r.value < k < hi ==> !IsBreak(t[k])
    ensures r.None? ==> forall k :: lo <= k < hi ==> !IsBreak(t[k])
    decreases hi
  {
    if hi == lo then None
    else if IsBreak(t[hi - 1]) then Some(hi - 1)
    else LastBreakIn(t, lo, hi - 1)
  }

  /**
   * Where group 2 starts for the closing `---` at `c`: after the last line
   * break of the whitespace run that follows the delimiter, if it has one.
   */
  function BodyStart(t: string, c: nat): (r: Option<nat>)
    requires FenceAt(t, c)
    ensures r.Some? ==> SpacesThenBreak(t, c + 3, r.value)
    ensures forall j: nat {:trigger SpacesThenBreak(t, c + 3, j)} :: SpacesThenBreak(t, c + 3, j) ==> r.Some? && j <= r.value
  {
    match LastBreakIn(t, c + 3, SpaceRunEnd(t, c + 3))
    case None => None
    case Some(k) => Some(k + 1)
  }

  /**
   * `[\r\n]+---\s*[\r\n]+` matches starting at `e` (what follows, `([\s\S]*)$`,
   * always matches).
   */
  predicate ClosesAt(t: string, e: nat) {
    && e < |t| && IsBreak(t[e])
    && FenceAt(t, BreakRunEnd(t, e))
    && BodyStart(t, BreakRunEnd(t, e)).Some?
  }

  /** The first position at or after `from` where the closing part matches. */
  function FirstClose(t: string, from: nat): (r: Option<nat>)
    requires from <= |t|
    ensures r.Some? ==> from <= r.value < |t| && ClosesAt(t, r.value)
    ensures forall e: nat :: from <= e && ClosesAt(t, e) ==> r.Some? && r.value <= e
    decreases |t| - from
  {
    if from == |t| then None
    else if ClosesAt(t, from) then Some(from)
    else FirstClose(t, from + 1)
  }

  /** The last position before `hi` where the closing part matches. */
  function LastClose(t: string, hi: nat): (r: Option<nat>)
    requires hi <= |t|
    ensures r.Some? ==> r.value < hi && ClosesAt(t, r.value)
    ensures forall e: nat :: e < hi && ClosesAt(t, e) ==> r.Some? && e <= r.value
    decreases hi
  {
    if hi == 0 then None
    else if ClosesAt(t, hi - 1) then Some(hi - 1)
    else LastClose(t, hi - 1)
  }

  /** `q` can end the opening part `---\s*[\r\n]+`. */
  predicate HeaderEnd(t: string, q: nat) {
    3 <= |t| && 4 <= q <= SpaceRunEnd(t, 3) && IsBreak(t[q - 1])
  }

  lemma BreakRunStopsAtFence(t: string, ge: nat, c: nat)
    requires BreakSpan(t, ge, c) && FenceAt(t, c)
    ensures BreakRunEnd(t, ge) == c
  {
  }

  /** Every match of the strict pattern is made of a header end and a closing position. */
  lemma StrictShapeParts(t: string, gs: nat, ge: nat, c: nat, bs: nat)
    requires StrictShape(t, gs, ge, c, bs)
    ensures HeaderEnd(t, gs) && ClosesAt(t, ge)
    ensures BreakRunEnd(t, ge) == c && bs <= BodyStart(t, c).value
  {
    SpaceRunIsMaximal(t, 3, gs);
    BreakRunStopsAtFence(t, ge, c);
  }

  /**
   * The scan: the last closing position `l`, the last line break `k` that can
   * end the opening part without passing `l`, then the first closing at or
   * after `k + 1`.
   */
  function StrictScan(t: string): Option<(nat, nat)>
    requires FenceAt(t, 0)
  {
    match LastClose(t, |t|)
    case None => None
    case Some(l) =>
      var a := SpaceRunEnd(t, 3);
      var hi := if a < l then a else l;
      if hi < 3 then None
      else
        match LastBreakIn(t, 3, hi)
        case None => None
        case Some(k) =>
          match FirstClose(t, k + 1)
          case None => None
          case Some(e) => Some((k + 1, e))
  }

  /** Without a scan result, the strict pattern does not match. */
  lemma StrictNoMatch(t: string)
    requires !FenceAt(t, 0) || StrictScan(t).None?
    ensures !StrictMatches(t)
  {
    forall gs, ge, c, bs | StrictShape(t, gs, ge, c, bs) ensures false {
      StrictShapeParts(t, gs, ge, c, bs);
    }
  }

  /** The scan finds a header end and a closing position after it. */
  lemma StrictScanParts(t: string)
    requires FenceAt(t, 0) && StrictScan(t).Some?
    ensures var (q, e) := StrictScan(t).value;
      HeaderEnd(t, q) && q <= e && ClosesAt(t, e)
  {
  }

  /** The header end the scan finds is the latest possible one, and its closing the earliest. */
  lemma StrictScanPriority(t: string, gs: nat, ge: nat, c: nat, bs: nat)
    requires FenceAt(t, 0) && StrictScan(t).Some? && StrictShape(t, gs, ge, c, bs)
    ensures var (q, e) := StrictScan(t).value;
      gs <= q && (gs == q ==> e <= ge)
  {
    StrictShapeParts(t, gs, ge, c, bs);
    assert IsBreak(t[gs - 1]);
  }

  /** The header end and closing the scan finds give the match the engine reports. */
  lemma StrictChosenOfScan(t: string)
    requires FenceAt(t, 0) && StrictScan(t).Some?
    ensures var (q, e) := StrictScan(t).value;
      var c := BreakRunEnd(t, e);
      StrictChosen(t, q, e, c, BodyStart(t, c).value)
    ensures StrictMatches(t)
  {
    var (q, e) := StrictScan(t).value;
    var c := BreakRunEnd(t, e);
    var bs := BodyStart(t, c).value;
    StrictScanParts(t);
    assert StrictShape(t, q, e, c, bs);
    forall gs': nat, ge': nat, c': nat, bs': nat | StrictShape(t, gs', ge', c', bs')
      ensures gs' <= q && (gs' == q ==> e <= ge' && (ge' == e ==> bs' <= bs))
    {
      StrictScanPriority(t, gs', ge', c', bs');
      StrictShapeParts(t, gs', ge', c', bs');
    }
  }

  /** The engine's choice is unique. */
  lemma StrictChosenUnique(t: string, m: StrictSpan, gs: nat, ge: nat, c: nat, bs: nat)
    requires StrictChosen(t, m.gs, m.ge, m.c, m.bs) && StrictChosen(t, gs, ge, c, bs)
    ensures m == StrictSpan(gs, ge, c, bs)
  {
    StrictShapeParts(t, gs, ge, c, bs);
    StrictShapeParts(t, m.gs, m.ge, m.c, m.bs);
  }

  /** What the strict pattern's `match` reports for the trimmed text `t`, or `None` when it fails. */
  function StrictMatch(t: string): (r: Option<StrictSpan>)
    ensures r.Some? ==> StrictChosen(t, r.value.gs, r.value.ge, r.value.c, r.value.bs)
    ensures r.None? <==> !StrictMatches(t)
  {
    if !FenceAt(t, 0) || StrictScan(t).None? then
      StrictNoMatch(t);
      None
    else
      StrictChosenOfScan(t);
      var (q, e) := StrictScan(t).value;
      var c := BreakRunEnd(t, e);
      Some(StrictSpan(q, e, c, BodyStart(t, c).value))
  }

  // ---------------------------------------------------------------------------
  // The fallback pattern /^---([\s\S]*?)---\s*([\s\S]*)$/
  // ---------------------------------------------------------------------------

  /** The fallback pattern matches all of `t` with group 1 = `t[3..ge]` and group 2 = `t[bs..]`. */
  predicate AltShape(t: string, ge: nat, bs: nat) {
    && 3 <= ge && ge + 3 <= bs <= |t|
    && FenceAt(t, 0)
    && FenceAt(t, ge)
    && SpaceSpan(t, ge + 3, bs)
  }

  /** Some way to match the fallback pattern exists. */
  ghost predicate AltMatches(t: string) {
    exists ge, bs :: AltShape(t, ge, bs)
  }

  /** The lazy group stops at the first `---` after the opening one; the greedy `\s*` then takes all whitespace. */
  ghost predicate AltChosen(t: string, ge: nat, bs: nat) {
    && AltShape(t, ge, bs)
    && forall ge': nat, bs': nat :: AltShape(t, ge', bs') ==> ge <= ge' && (ge' == ge ==> bs' <= bs)
  }

  /** The first `---` starting at or after `from`. */
  function NextFence(t: string, from: nat): (r: Option<nat>)
    requires from <= |t|
    ensures r.Some? ==> from <= r.value && FenceAt(t, r.value)
    ensures r.Some? ==> forall g :: from <= g < r.value ==> !FenceAt(t, g)
    ensures r.None? ==> forall g :: from <= g ==> !FenceAt(t, g)
    decreases |t| - from
  {
    if from + 3 > |t| then None
    else if FenceAt(t, from) then Some(from)
    else NextFence(t, from + 1)
  }

  /** The first `---` after the opening one, and the end of the whitespace after it, give the match the engine reports. */
  lemma AltChosenOfFence(t: string, ge: nat)
    requires FenceAt(t, 0) && NextFence(t, 3) == Some(ge)
    ensures AltChosen(t, ge, SpaceRunEnd(t, ge + 3)) && AltMatches(t)
  {
    var bs := SpaceRunEnd(t, ge + 3);
    assert AltShape(t, ge, bs);
    forall ge': nat, bs': nat | AltShape(t, ge', bs') ensures ge <= ge' && (ge' == ge ==> bs' <= bs) {
      if ge' == ge { SpaceRunIsMaximal(t, ge + 3, bs'); }
    }
  }

  /** Without a second `---`, the fallback pattern does not match. */
  lemma AltNoMatch(t: string)
    requires !FenceAt(t, 0) || NextFence(t, 3).None?
    ensures !AltMatches(t)
  {
  }

  /** The engine's choice is unique. */
  lemma AltChosenUnique(t: string, ge: nat, bs: nat, ge': nat, bs': nat)
    requires AltChosen(t, ge, bs) && AltChosen(t, ge', bs')
    ensures ge == ge' && bs == bs'
  {
  }

  /** What the fallback pattern's `match` reports: `(ge, bs)`, or `None`. */
  function AltMatch(t: string): (r: Option<(nat, nat)>)
    ensures r.Some? ==> AltChosen(t, r.value.0, r.value.1)
    ensures r.None? <==> !AltMatches(t)
  {
    if !FenceAt(t, 0) then
      AltNoMatch(t);
      None
    else
      match NextFence(t, 3)
      case None =>
        AltNoMatch(t);
        None
      case Some(ge) =>
        AltChosenOfFence(t, ge);
        Some((ge, SpaceRunEnd(t, ge + 3)))
  }

  // ---------------------------------------------------------------------------
  // parseFrontmatter
  // ---------------------------------------------------------------------------

  /**
   * `parseFrontmatter`: the strict pattern on the trimmed document, then the
   * fallback pattern, else no frontmatter and the document unchanged.
   */
  function ParseFrontmatter(content: string): Parsed {
    var t := Trim(content);
    match StrictMatch(t)
    case Some(m) =>
      Parsed(Decode(t[m.gs..m.ge]), Trim(t[m.bs..]))
    case None =>
      match AltMatch(t)
      case Some((ge, bs)) => Parsed(Decode(t[3..ge]), Trim(t[bs..]))
      case None => Parsed(map[], content)
  }

  /**
   * The document comes back unchanged, with an empty frontmatter, exactly when
   * neither pattern matches its trimmed text.
   */
  lemma ParseWithoutMatch(content: string)
    ensures var t := Trim(content);
      (!StrictMatches(t) && !AltMatches(t)) <==> ParseFrontmatter(content) == Parsed(map[], content)
  {
  }

  /** A document that does not start with `---` (after trimming) has no frontmatter. */
  lemma ParseUnfenced(content: string)
    requires !StartsWith(Trim(content), "---")
    ensures ParseFrontmatter(content) == Parsed(map[], content)
  {
    FenceAtStart(Trim(content));
  }

  /**
   * When the strict pattern matches, the frontmatter is decoded from the
   * engine's group 1 and the content is its group 2, trimmed.
   */
  lemma ParseStrict(content: string, gs: nat, ge: nat, c: nat, bs: nat)
    requires StrictChosen(Trim(content), gs, ge, c, bs)
    ensures var t := Trim(content);
      ParseFrontmatter(content) == Parsed(Decode(t[gs..ge]), Trim(t[bs..]))
  {
    var t := Trim(content);
    assert StrictMatches(t);
    StrictChosenUnique(t, StrictMatch(t).value, gs, ge, c, bs);
  }

  /**
   * When only the fallback pattern matches, the frontmatter is decoded from
   * the text between the first two `---` and the content is what follows the
   * whitespace after the second, trimmed.
   */
  lemma ParseAlt(content: string, ge: nat, bs: nat)
    requires !StrictMatches(Trim(content)) && AltChosen(Trim(content), ge, bs)
    ensures var t := Trim(content);
      ParseFrontmatter(content) == Parsed(Decode(t[3..ge]), Trim(t[bs..]))
  {
    var t := Trim(content);
    assert AltMatches(t);
    AltChosenUnique(t, ge, bs, AltMatch(t).value.0, AltMatch(t).value.1);
  }

  /** The content returned is the document itself or trimmed text. */
  lemma ParseContentTrimmed(content: string)
    ensures var r := ParseFrontmatter(content);
      r.content == content || Trimmed(r.content)
  {
  }
}
