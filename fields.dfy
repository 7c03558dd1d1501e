/**
 * How the pages read a parsed frontmatter map. A missing key reads as
 * `undefined` and the empty string is falsy, so `fm.key || fallback` and
 * `fm.key ? ... : []` treat both alike, while a plain `fm.key` keeps the empty
 * string and only a missing key becomes `undefined`.
 */
module Fields {
  import opened Wrappers
  import opened Strings

  type Frontmatter = map<string, string>

  /** `fm[key]` is a non-empty string, i.e. truthy in JavaScript. */
  predicate Truthy(fm: Frontmatter, key: string) {
    key in fm && fm[key] != ""
  }

  /** `fm[key] || fallback`. */
  function TextOr(fm: Frontmatter, key: string, fallback: string): (r: string)
    ensures Truthy(fm, key) ==> r == fm[key]
    ensures !Truthy(fm, key) ==> r == fallback
    ensures r == "" <==> !Truthy(fm, key) && fallback == ""
  {
    if Truthy(fm, key) then fm[key] else fallback
  }

  /** `fm[key]` copied as is: `None` for `undefined`, an empty value kept. */
  function Optional(fm: Frontmatter, key: string): (r: Option<string>)
    ensures r.Some? <==> key in fm
    ensures r.Some? ==> r.value == fm[key]
  {
    if key in fm then Some(fm[key]) else None
  }

  /** Trimming does not bring in a character the text lacks. */
  lemma TrimKeepsOut(s: string, c: char)
    requires c !in s
    ensures c !in Trim(s)
  {
    TrimIsInfix(s);
    var r := Trim(s);
    var i :| 0 <= i <= |s| - |r| && r == s[i..i + |r|] && AllSpace(s[..i]) && AllSpace(s[i + |r|..]);
    forall k | 0 <= k < |r| ensures r[k] != c {
      assert r[k] == s[i + k];
    }
  }

  /**
   * `fm[key] ? fm[key].split(',').map(t => t.trim()) : []`. Empty pieces are
   * kept, so a truthy value gives one more element than it has commas; every
   * element is trimmed and free of commas.
   */
  function ListField(fm: Frontmatter, key: string): (r: seq<string>)
    ensures !Truthy(fm, key) ==> r == []
    ensures Truthy(fm, key) ==> |r| == Count(fm[key], ',') + 1
    ensures forall i :: 0 <= i < |r| ==> Trimmed(r[i]) && ',' !in r[i]
  {
    if Truthy(fm, key) then
      var parts := Split(fm[key], ',');
      SplitCount(fm[key], ',');
      forall i | 0 <= i < |parts| ensures ',' !in Trim(parts[i]) {
        TrimKeepsOut(parts[i], ',');
      }
      TrimEach(parts)
    else []
  }

  /**
   * The list is the comma-separated pieces of the value, each trimmed: joining
   * the untrimmed pieces back with commas gives the value.
   */
  lemma ListFieldPieces(fm: Frontmatter, key: string)
    requires Truthy(fm, key)
    ensures exists parts :: Join(parts, ",") == fm[key] && ListField(fm, key) == TrimEach(parts)
  {
    JoinSplit(fm[key], ',');
    assert Join(Split(fm[key], ','), [',']) == fm[key];
  }

  /**
   * A list written as trimmed, comma-free items joined by commas reads back as
   * exactly those items.
   */
  lemma ListFieldRoundTrip(fm: Frontmatter, key: string, items: seq<string>)
    requires |items| > 0
    requires forall i :: 0 <= i < |items| ==> Trimmed(items[i]) && ',' !in items[i]
    requires key in fm && fm[key] == Join(items, ",") && fm[key] != ""
    ensures ListField(fm, key) == items
  {
    SplitJoin(items, ',');
    assert [','] == ",";
    forall i | 0 <= i < |items| ensures Trim(items[i]) == items[i] {
      TrimOfTrimmed(items[i]);
    }
  }
}
