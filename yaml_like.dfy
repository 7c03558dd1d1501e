/**
 * The frontmatter block decoder (`parseYamlLikeFrontmatter` in
 * `markdownLoader.ts`): each `key: value` line of the block becomes an entry of
 * a flat string-to-string map. This is not YAML: no nesting, no lists, no
 * escapes; only one pair of surrounding quotes is removed.
 */
module YamlLike {
  import opened Wrappers
  import opened Strings

  /**
   * The quote stripping of `parseYamlLikeFrontmatter`: a value that starts and
   * ends with `"`, or starts and ends with `'`, loses its first and last
   * character (`value.slice(1, -1)`); any other value is kept.
   */
  function Unquote(v: string): (r: string)
    ensures |v| >= 2 && (v[0] == '"' || v[0] == '\'') && v[|v| - 1] == v[0] ==> r == v[1..|v| - 1]
    ensures (v == "\"" || v == "'") ==> r == ""
    ensures !(StartsWith(v, "\"") && EndsWith(v, "\"")) && !(StartsWith(v, "'") && EndsWith(v, "'")) ==> r == v
  {
    if (StartsWith(v, "\"") && EndsWith(v, "\"")) || (StartsWith(v, "'") && EndsWith(v, "'")) then
      if |v| >= 2 then v[1..|v| - 1] else ""
    else v
  }

  /** Exactly one pair of matching quotes comes off, whatever is inside. */
  lemma UnquoteQuoted(x: string, q: char)
    requires q == '"' || q == '\''
    ensures Unquote([q] + x + [q]) == x
  {
    var v := [q] + x + [q];
    assert v[1..|v| - 1] == x;
  }

  /** `t == k + ":" + v` with no colon in `k`: the split at `indexOf(':')`. */
  predicate ColonSplit(t: string, k: string, v: string) {
    t == k + ":" + v && ':' !in k
  }

  /** The split at the first colon is the only `ColonSplit` of `t`. */
  lemma FirstColonSplit(t: string, i: nat)
    requires IndexOfChar(t, ':') == Some(i)
    ensures ColonSplit(t, t[..i], t[i + 1..])
    ensures forall k, v :: ColonSplit(t, k, v) ==> k == t[..i] && v == t[i + 1..]
  {
    assert t == t[..i] + [t[i]] + t[i + 1..];
    forall k, v | ColonSplit(t, k, v) ensures k == t[..i] && v == t[i + 1..] {
      assert t[|k|] == ':';
      assert |k| == i;
      assert t[..|k|] == k;
      assert t[|k| + 1..] == v;
    }
  }

  /** A text with a `ColonSplit` has a colon. */
  lemma ColonSplitHasColon(t: string, k: string, v: string)
    requires ColonSplit(t, k, v)
    ensures ':' in t
  {
    assert t[|k|] == ':';
  }

  /**
   * What one line of the frontmatter block contributes: nothing for a blank
   * line, a `#` comment, a line without a colon or an empty key; otherwise the
   * trimmed text before the first colon and the trimmed, unquoted text after it.
   */
  function LineEntry(line: string): (e: Option<(string, string)>)
    ensures e.Some? ==> e.value.0 != "" && Trimmed(e.value.0)
    ensures e.Some? ==> Trim(line) != "" && Trim(line)[0] != '#'
  {
    var t := Trim(line);
    if t == "" || t[0] == '#' then None
    else
      match IndexOfChar(t, ':')
      case None => None
      case Some(i) =>
        var key := Trim(t[..i]);
        if key == "" then None else Some((key, Unquote(Trim(t[i + 1..]))))
  }

  /**
   * A line is skipped when, trimmed, it is blank, starts with `#`, has no
   * colon, or has only whitespace before its first colon; otherwise its key is
   * the trimmed text before the first colon and its value the trimmed,
   * unquoted text after it (further colons belong to the value).
   */
  lemma LineEntryMeaning(line: string)
    ensures var t := Trim(line);
      t == "" || t[0] == '#' || ':' !in t ==> LineEntry(line).None?
    ensures var t := Trim(line);
      forall k, v :: ColonSplit(t, k, v) ==>
        LineEntry(line) == if t[0] == '#' || Trim(k) == "" then None else Some((Trim(k), Unquote(Trim(v))))
  {
    var t := Trim(line);
    if IndexOfChar(t, ':').Some? {
      FirstColonSplit(t, IndexOfChar(t, ':').value);
    } else {
      forall k, v | ColonSplit(t, k, v) ensures false {
        ColonSplitHasColon(t, k, v);
      }
    }
  }

  /**
   * `frontmatter[key] = value` on a plain JavaScript object: the key
   * `__proto__` reaches the prototype setter, which ignores a string, so that
   * assignment adds nothing.
   */
  function Assign(fm: map<string, string>, key: string, value: string): (r: map<string, string>)
    ensures key == "__proto__" ==> r == fm
    ensures key != "__proto__" ==> key in r && r[key] == value
    ensures forall k :: k != key ==> (k in r <==> k in fm)
    ensures forall k :: k != key && k in fm ==> r[k] == fm[k]
  {
    if key == "__proto__" then fm else fm[key := value]
  }

  /** A line's contribution: the key and value it defines, if any. */
  type Entry = Option<(string, string)>

  /** The contribution of every line, in order. */
  function Entries(lines: seq<string>): (es: seq<Entry>)
    ensures |es| == |lines|
    ensures forall i :: 0 <= i < |lines| ==> es[i] == LineEntry(lines[i])
  {
    seq(|lines|, i requires 0 <= i < |lines| => LineEntry(lines[i]))
  }

  /** The map built from the entries, one after the other. */
  function Build(es: seq<Entry>): map<string, string>
    decreases |es|
  {
    if |es| == 0 then map[]
    else
      var fm := Build(es[..|es| - 1]);
      match es[|es| - 1]
      case None => fm
      case Some((k, v)) => Assign(fm, k, v)
  }

  /** The map `parseYamlLikeFrontmatter` returns for `text`. */
  function Decode(text: string): map<string, string> {
    Build(Entries(SplitLines(text)))
  }

  /** Entry `i` defines `key`. */
  predicate Defines(es: seq<Entry>, i: int, key: string)
    requires 0 <= i < |es|
  {
    es[i].Some? && es[i].value.0 == key
  }

  /**
   * The keys of the map are exactly the keys that some entry defines (except
   * `__proto__`); the value of a key is the value of the LAST entry that
   * defines it.
   */
  lemma {:induction false} BuildMeaning(es: seq<Entry>, key: string)
    ensures key in Build(es) <==>
      key != "__proto__" && exists i :: 0 <= i < |es| && Defines(es, i, key)
    ensures forall i :: (0 <= i < |es| && Defines(es, i, key) && key != "__proto__"
                         && (forall j :: i < j < |es| ==> !Defines(es, j, key)))
                        ==> key in Build(es) && Build(es)[key] == es[i].value.1
    decreases |es|
  {
    if |es| > 0 {
      var n := |es| - 1;
      var init := es[..n];
      BuildMeaning(init, key);
      assert forall i :: 0 <= i < n ==> init[i] == es[i];
      assert forall i :: 0 <= i < n ==> (Defines(init, i, key) <==> Defines(es, i, key));
      if !Defines(es, n, key) {
        assert (key in Build(es) <==> key in Build(init)) && (key in Build(es) ==> Build(es)[key] == Build(init)[key]);
      }
    }
  }

  /** Line `i` of `lines` defines `key`. */
  predicate LineDefines(lines: seq<string>, i: int, key: string)
    requires 0 <= i < |lines|
  {
    LineEntry(lines[i]).Some? && LineEntry(lines[i]).value.0 == key
  }

  /** The entries of `lines` define exactly what the lines define. */
  lemma EntriesDefine(lines: seq<string>, key: string)
    ensures forall i :: 0 <= i < |lines| ==> (Defines(Entries(lines), i, key) <==> LineDefines(lines, i, key))
  {
  }

  /**
   * The keys of the map built from the lines of a frontmatter block are the
   * keys that some line defines, except `__proto__`.
   */
  lemma {:induction false} DecodeLinesKeys(lines: seq<string>, key: string)
    ensures key in Build(Entries(lines)) <==>
      key != "__proto__" && exists i :: 0 <= i < |lines| && LineDefines(lines, i, key)
  {
    BuildMeaning(Entries(lines), key);
    EntriesDefine(lines, key);
  }

  /** A key maps to the value on the last line that defines it. */
  lemma {:induction false} DecodeLinesLastWins(lines: seq<string>, key: string, i: nat)
    requires i < |lines| && LineDefines(lines, i, key) && key != "__proto__"
    requires forall j :: i < j < |lines| ==> !LineDefines(lines, j, key)
    ensures key in Build(Entries(lines)) && Build(Entries(lines))[key] == LineEntry(lines[i]).value.1
  {
    BuildMeaning(Entries(lines), key);
    EntriesDefine(lines, key);
  }

  /** The body of the loop in `parseYamlLikeFrontmatter` up to the assignment: the key and value of one line, if any. */
  method ReadLine(line: string) returns (entry: Entry)
    ensures entry == LineEntry(line)
  {
    var trimmedLine := Trim(line);
    if trimmedLine == "" || trimmedLine[0] == '#' {
      return None;
    }
    var colonIndex := IndexOfChar(trimmedLine, ':');
    if colonIndex.None? {
      return None;
    }
    var key := Trim(trimmedLine[..colonIndex.value]);
    var value := Trim(trimmedLine[colonIndex.value + 1..]);
    if key == "" {
      return None;
    }
    if (StartsWith(value, "\"") && EndsWith(value, "\"")) || (StartsWith(value, "'") && EndsWith(value, "'")) {
      value := if |value| >= 2 then value[1..|value| - 1] else "";
    }
    return Some((key, value));
  }

  /**
   * `parseYamlLikeFrontmatter`: splits the block on runs of line breaks and
   * records each `key: value` line in a map, a later line overwriting an
   * earlier one with the same key.
   */
  method ParseYamlLikeFrontmatter(text: string) returns (fm: map<string, string>)
    ensures fm == Decode(text)
  {
    var lines := SplitLines(text);
    fm := map[];
    for i := 0 to |lines|
      invariant fm == Build(Entries(lines)[..i])
    {
      assert Entries(lines)[..i + 1][..i] == Entries(lines)[..i];
      var entry := ReadLine(lines[i]);
      if entry.Some? {
        var (key, value) := entry.value;
        if key != "__proto__" {
          fm := fm[key := value];
        }
      }
    }
    assert Entries(lines)[..|lines|] == Entries(lines);
  }
}
