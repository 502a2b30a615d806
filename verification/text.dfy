/** The string operations of Rust's `str` that the checks rely on:
    `trim`, `starts_with`, `contains` and `split_whitespace`.
    Whitespace is the Unicode White_Space set, which is what
    `char::is_whitespace` tests. */
module Text {

  /** `char::is_whitespace`: the characters with the Unicode White_Space property. */
  predicate IsWhitespace(c: char) {
    ('\U{0009}' <= c <= '\U{000D}') || c == ' ' || c == '\U{0085}' || c == '\U{00A0}'
    || c == '\U{1680}' || ('\U{2000}' <= c <= '\U{200A}') || c == '\U{2028}'
    || c == '\U{2029}' || c == '\U{202F}' || c == '\U{205F}' || c == '\U{3000}'
  }

  predicate NoWhitespace(s: string) {
    forall k :: 0 <= k < |s| ==> !IsWhitespace(s[k])
  }

  predicate AllWhitespace(s: string) {
    forall k :: 0 <= k < |s| ==> IsWhitespace(s[k])
  }

  /** `str::starts_with` with a string (or one-character) pattern. */
  predicate StartsWith(s: string, prefix: string) {
    |prefix| <= |s| && s[..|prefix|] == prefix
  }

  /** `sub` occurs in `s` starting at offset `i`. */
  predicate OccursAt(s: string, sub: string, i: int) {
    0 <= i <= |s| - |sub| && s[i..i + |sub|] == sub
  }

  /** `str::contains` with a string pattern: `sub` occurs at some offset of `s`. */
  function Contains(s: string, sub: string): (b: bool)
    ensures b <==> exists i :: OccursAt(s, sub, i)
    decreases |s|
  {
    if StartsWith(s, sub) then
      assert OccursAt(s, sub, 0);
      true
    else if s == [] then
      false
    else
      var b := Contains(s[1..], sub);
      assert b ==> exists i :: OccursAt(s, sub, i) by {
        if b {
          var i :| OccursAt(s[1..], sub, i);
          assert s[1..][i..i + |sub|] == s[i + 1..i + 1 + |sub|];
          assert OccursAt(s, sub, i + 1);
        }
      }
      assert (exists i :: OccursAt(s, sub, i)) ==> b by {
        if i :| OccursAt(s, sub, i) {
          assert i != 0;
          assert s[1..][i - 1..i - 1 + |sub|] == s[i..i + |sub|];
          assert OccursAt(s[1..], sub, i - 1);
        }
      }
      b
  }

  /** `str::trim_start`: `s` without its leading whitespace. */
  function TrimStart(s: string): string {
    if s != [] && IsWhitespace(s[0]) then TrimStart(s[1..]) else s
  }

  /** `str::trim_end`: `s` without its trailing whitespace. */
  function TrimEnd(s: string): string {
    if s != [] && IsWhitespace(s[|s| - 1]) then TrimEnd(s[..|s| - 1]) else s
  }

  /** `str::trim`: `s` without its leading and trailing whitespace. */
  function Trim(s: string): string {
    TrimEnd(TrimStart(s))
  }

  /** `TrimStart` keeps a suffix of `s`, cuts away only whitespace and
      leaves a string that does not start with whitespace. */
  lemma {:induction false} TrimStartSuffix(s: string)
    ensures var t := TrimStart(s);
      && |t| <= |s| && t == s[|s| - |t|..] && AllWhitespace(s[..|s| - |t|])
      && (t != [] ==> !IsWhitespace(t[0]))
  {
    if s != [] && IsWhitespace(s[0]) {
      TrimStartSuffix(s[1..]);
      var t := TrimStart(s);
      assert s[..|s| - |t|] == [s[0]] + s[1..][..|s| - 1 - |t|];
    }
  }

  /** `TrimEnd` keeps a prefix of `s`, cuts away only whitespace and
      leaves a string that does not end with whitespace. */
  lemma {:induction false} TrimEndPrefix(s: string)
    ensures var t := TrimEnd(s);
      && |t| <= |s| && t == s[..|t|] && AllWhitespace(s[|t|..])
      && (t != [] ==> !IsWhitespace(t[|t| - 1]))
  {
    if s != [] && IsWhitespace(s[|s| - 1]) {
      var u := s[..|s| - 1];
      TrimEndPrefix(u);
      var t := TrimEnd(s);
      assert s[|t|..] == u[|t|..] + [s[|s| - 1]];
    }
  }

  /** `TrimStart` removes a leading run of whitespace up to the first
      non-whitespace character. */
  lemma {:induction false} TrimStartLeading(sp: string, s: string)
    requires AllWhitespace(sp) && (s != [] ==> !IsWhitespace(s[0]))
    ensures TrimStart(sp + s) == s
    decreases |sp|
  {
    if sp != [] {
      assert (sp + s)[0] == sp[0];
      assert (sp + s)[1..] == sp[1..] + s;
      TrimStartLeading(sp[1..], s);
    } else {
      assert sp + s == s;
    }
  }

  /** What `Trim` removes: the result is the slice of `s` that starts and
      ends with a non-whitespace character (or is empty), and everything cut
      away on either side is whitespace. */
  lemma TrimSlice(s: string)
    ensures var t := Trim(s);
      && (t != [] ==> !IsWhitespace(t[0]) && !IsWhitespace(t[|t| - 1]))
      && exists i :: 0 <= i <= |s| - |t| && s[i..i + |t|] == t
                     && AllWhitespace(s[..i]) && AllWhitespace(s[i + |t|..])
  {
    var u := TrimStart(s);
    TrimStartSuffix(s);
    TrimEndPrefix(u);
    var t := Trim(s);
    var a := |s| - |u|;
    assert s[a..a + |t|] == t;
    assert s[a + |t|..] == u[|t|..];
  }

  /** The length of the word at the front of `s`: its leading run of
      non-whitespace characters. */
  function WordLength(s: string): (n: nat)
    ensures n <= |s| && NoWhitespace(s[..n])
    ensures n < |s| ==> IsWhitespace(s[n])
    decreases |s|
  {
    if s != [] && !IsWhitespace(s[0]) then
      var m := WordLength(s[1..]);
      assert s[..m + 1] == [s[0]] + s[1..][..m];
      m + 1
    else
      0
  }

  /** `str::split_whitespace`: the maximal runs of non-whitespace characters
      of `s`, in order; every word is non-empty and holds no whitespace. */
  function Words(s: string): (ws: seq<string>)
    ensures forall k :: 0 <= k < |ws| ==> ws[k] != [] && NoWhitespace(ws[k])
    ensures AllWhitespace(s) <==> ws == []
    decreases |s|
  {
    if s == [] then
      []
    else if IsWhitespace(s[0]) then
      var ws := Words(s[1..]);
      assert AllWhitespace(s) <==> AllWhitespace(s[1..]) by {
        assert forall k :: 1 <= k < |s| ==> s[k] == s[1..][k - 1];
      }
      ws
    else
      var n := WordLength(s);
      [s[..n]] + Words(s[n..])
  }

  /** Leading whitespace contributes no word: `split_whitespace` skips it. */
  lemma {:induction false} WordsLeading(sp: string, s: string)
    requires AllWhitespace(sp)
    ensures Words(sp + s) == Words(s)
    decreases |sp|
  {
    if sp != [] {
      assert (sp + s)[0] == sp[0];
      assert (sp + s)[1..] == sp[1..] + s;
      WordsLeading(sp[1..], s);
    } else {
      assert sp + s == s;
    }
  }

  /** A word followed by a run of whitespace is split off as the first word,
      and the run itself is skipped. */
  lemma {:induction false} WordsSplitFirst(w: string, sp: string, rest: string)
    requires w != [] && NoWhitespace(w) && sp != [] && AllWhitespace(sp)
    ensures Words(w + sp + rest) == [w] + Words(rest)
  {
    var s := w + sp + rest;
    assert !IsWhitespace(s[0]);
    var n := WordLength(s);
    assert n == |w| by {
      assert forall k :: 0 <= k < |w| ==> s[k] == w[k];
      assert s[|w|] == sp[0];
    }
    assert s[..n] == w;
    assert s[n..] == sp + rest;
    WordsLeading(sp, rest);
  }

  /** A single word with no whitespace splits into just itself. */
  lemma {:induction false} WordsOfWord(w: string)
    requires w != [] && NoWhitespace(w)
    ensures Words(w) == [w]
  {
    var n := WordLength(w);
    assert n == |w|;
    assert w[..n] == w;
    assert w[n..] == [];
  }

  /** A `Key Value` line, with any run of whitespace between the two,
      splits into exactly the key and the value. */
  lemma KeyValueWords(key: string, sp: string, value: string)
    requires key != [] && NoWhitespace(key) && sp != [] && AllWhitespace(sp)
    requires value != [] && NoWhitespace(value)
    ensures Words(key + sp + value) == [key, value]
  {
    WordsSplitFirst(key, sp, value);
    WordsOfWord(value);
  }

  /** Trimming a string that neither starts nor ends with whitespace leaves it unchanged. */
  lemma TrimUnchanged(s: string)
    requires s != [] && !IsWhitespace(s[0]) && !IsWhitespace(s[|s| - 1])
    ensures Trim(s) == s
  {
  }
}
