/** The string operations of Python's `str` that the collector relies on:
    `lower`, `in`, `split()`, `split(sep)`, `sep.join`, `rstrip` and `replace`. */
module Text {

  /** Python's `str.isspace` for one character: the separators of `str.split()` with no argument. */
  predicate IsSpace(c: char) {
    || c == ' '
    || '\t' <= c <= '\r'
    || '\U{1C}' <= c <= '\U{1F}'
    || c == '\U{85}' || c == '\U{A0}' || c == '\U{1680}'
    || '\U{2000}' <= c <= '\U{200A}'
    || c == '\U{2028}' || c == '\U{2029}' || c == '\U{202F}' || c == '\U{205F}' || c == '\U{3000}'
  }

  predicate IsUpper(c: char) {
    'A' <= c <= 'Z'
  }

  function LowerChar(c: char): (r: char)
    ensures !IsUpper(r)
    ensures IsUpper(c) ==> r as int == c as int + 32
    ensures !IsUpper(c) ==> r == c
  {
    if IsUpper(c) then (c as int + 32) as char else c
  }

  /** `s.lower()`, restricted to the ASCII letters. */
  function Lower(s: string): (r: string)
    ensures |r| == |s|
    ensures forall i :: 0 <= i < |r| ==> !IsUpper(r[i])
  {
    seq(|s|, i requires 0 <= i < |s| => LowerChar(s[i]))
  }

  lemma LowerAppend(a: string, b: string)
    ensures Lower(a + b) == Lower(a) + Lower(b)
  {
    assert forall i :: 0 <= i < |a + b| ==> Lower(a + b)[i] == (Lower(a) + Lower(b))[i];
  }

  lemma LowerIdempotent(s: string)
    ensures Lower(Lower(s)) == Lower(s)
  {
  }

  /** `needle` occurs somewhere in `hay` as a contiguous piece. */
  ghost predicate Occurs(needle: string, hay: string) {
    exists i :: 0 <= i <= |hay| && needle <= hay[i..]
  }

  /** Python's `needle in hay` on strings, by a left-to-right scan. */
  function Contains(hay: string, needle: string): (found: bool)
    ensures needle <= hay ==> found
    ensures found ==> |needle| <= |hay|
    decreases |hay|
  {
    if needle <= hay then true
    else if hay == [] then false
    else Contains(hay[1..], needle)
  }

  lemma {:induction false} ContainsIsOccurs(hay: string, needle: string)
    ensures Contains(hay, needle) <==> Occurs(needle, hay)
    decreases |hay|
  {
    assert hay[0..] == hay;
    if !(needle <= hay) && hay != [] {
      ContainsIsOccurs(hay[1..], needle);
      if Contains(hay[1..], needle) {
        var i :| 0 <= i <= |hay[1..]| && needle <= hay[1..][i..];
        assert hay[1..][i..] == hay[i + 1..];
      }
      if Occurs(needle, hay) {
        var i :| 0 <= i <= |hay| && needle <= hay[i..];
        assert hay[1..][i - 1..] == hay[i..];
      }
    }
  }

  /** The empty string is in every string, so an absent field (`''`) matches anything. */
  lemma EmptyIsEverywhere(hay: string)
    ensures Contains(hay, "")
  {
  }

  /** Python's `sep.join(parts)`. */
  function JoinWith(parts: seq<string>, sep: string): (joined: string)
    ensures |parts| > 0 ==> parts[0] <= joined
  {
    if |parts| == 0 then ""
    else if |parts| == 1 then parts[0]
    else parts[0] + sep + JoinWith(parts[1..], sep)
  }

  lemma {:induction false} JoinAppend(a: seq<string>, b: seq<string>, sep: string)
    requires a != [] && b != []
    ensures JoinWith(a + b, sep) == JoinWith(a, sep) + sep + JoinWith(b, sep)
  {
    assert (a + b)[1..] == a[1..] + b;
    if |a| > 1 {
      JoinAppend(a[1..], b, sep);
    }
  }

  /** Python's `s.split(c)` for a one-character separator: always at least one part,
      one more part than there are separators, none containing the separator. */
  function SplitOn(s: string, c: char): (parts: seq<string>)
    ensures |parts| == multiset(s)[c] + 1
    ensures forall k :: 0 <= k < |parts| ==> c !in parts[k]
  {
    if s == [] then [""]
    else
      var rest := SplitOn(s[1..], c);
      assert s == [s[0]] + s[1..];
      if s[0] == c then [""] + rest else [[s[0]] + rest[0]] + rest[1..]
  }

  /** Joining the parts with the separator gives the string back. */
  lemma {:induction false} JoinSplitOn(s: string, c: char)
    ensures JoinWith(SplitOn(s, c), [c]) == s
  {
    if s != [] {
      var rest := SplitOn(s[1..], c);
      JoinSplitOn(s[1..], c);
      if s[0] == c {
        assert SplitOn(s, c) == [""] + rest;
        assert ([""] + rest)[1..] == rest;
      } else {
        var parts := SplitOn(s, c);
        assert parts == [[s[0]] + rest[0]] + rest[1..];
        if |rest| == 1 {
          assert parts == [[s[0]] + rest[0]];
        } else {
          assert parts[1..] == rest[1..];
        }
      }
    }
  }

  lemma {:induction false} SplitOnPrefix(x: string, z: string, c: char)
    requires c !in x
    ensures SplitOn(x + z, c) == [x + SplitOn(z, c)[0]] + SplitOn(z, c)[1..]
  {
    if x == [] {
      var parts := SplitOn(z, c);
      assert x + z == z;
      assert x + parts[0] == parts[0];
      assert parts == [parts[0]] + parts[1..];
    } else {
      assert (x + z)[1..] == x[1..] + z;
      assert (x + z)[0] == x[0];
      SplitOnPrefix(x[1..], z, c);
      assert [x[0]] + (x[1..] + SplitOn(z, c)[0]) == x + SplitOn(z, c)[0];
    }
  }

  /** Splitting text joined from separator-free parts gives the parts back. */
  lemma {:induction false} SplitOnJoin(parts: seq<string>, c: char)
    requires |parts| >= 1
    requires forall k :: 0 <= k < |parts| ==> c !in parts[k]
    ensures SplitOn(JoinWith(parts, [c]), c) == parts
  {
    if |parts| == 1 {
      SplitOnPrefix(parts[0], [], c);
      assert parts[0] + [] == parts[0];
      assert parts[0] + "" == parts[0];
    } else {
      var tail := JoinWith(parts[1..], [c]);
      SplitOnJoin(parts[1..], c);
      assert JoinWith(parts, [c]) == parts[0] + ([c] + tail);
      SplitOnPrefix(parts[0], [c] + tail, c);
      assert ([c] + tail)[1..] == tail;
      assert SplitOn([c] + tail, c) == [""] + parts[1..];
      assert parts[0] + "" == parts[0];
      assert parts == [parts[0]] + parts[1..];
    }
  }

  /** A token of `str.split()`: non-empty and free of whitespace. */
  predicate IsWord(w: string) {
    w != "" && forall i :: 0 <= i < |w| ==> !IsSpace(w[i])
  }

  function Flush(pending: string): seq<string> {
    if pending == "" then [] else [pending]
  }

  /** Scans `s` with `pending` holding the token read so far. */
  function Tokens(s: string, pending: string): (words: seq<string>)
    requires forall i :: 0 <= i < |pending| ==> !IsSpace(pending[i])
    ensures forall k :: 0 <= k < |words| ==> IsWord(words[k])
    decreases |s|
  {
    if s == [] then Flush(pending)
    else if IsSpace(s[0]) then Flush(pending) + Tokens(s[1..], "")
    else Tokens(s[1..], pending + [s[0]])
  }

  /** Python's `s.split()`: the maximal whitespace-free runs of `s`, in order. */
  function SplitWhitespace(s: string): (words: seq<string>)
    ensures forall k :: 0 <= k < |words| ==> IsWord(words[k])
  {
    Tokens(s, "")
  }

  lemma {:induction false} TokensAcrossSpace(a: string, sp: char, b: string, pending: string)
    requires IsSpace(sp)
    requires forall i :: 0 <= i < |pending| ==> !IsSpace(pending[i])
    ensures Tokens(a + [sp] + b, pending) == Tokens(a, pending) + Tokens(b, "")
    decreases |a|
  {
    if a == [] {
      assert a + [sp] + b == [sp] + b;
      assert ([sp] + b)[1..] == b;
    } else {
      assert (a + [sp] + b)[0] == a[0];
      assert (a + [sp] + b)[1..] == a[1..] + [sp] + b;
      if IsSpace(a[0]) {
        TokensAcrossSpace(a[1..], sp, b, "");
      } else {
        TokensAcrossSpace(a[1..], sp, b, pending + [a[0]]);
      }
    }
  }

  /** Text joined by a whitespace character splits into the tokens of each side. */
  lemma SplitWhitespaceAcross(a: string, sp: char, b: string)
    requires IsSpace(sp)
    ensures SplitWhitespace(a + [sp] + b) == SplitWhitespace(a) + SplitWhitespace(b)
  {
    TokensAcrossSpace(a, sp, b, "");
  }

  lemma {:induction false} TokensOfWord(w: string, pending: string)
    requires forall i :: 0 <= i < |pending| ==> !IsSpace(pending[i])
    requires forall i :: 0 <= i < |w| ==> !IsSpace(w[i])
    requires pending + w != ""
    ensures Tokens(w, pending) == [pending + w]
    decreases |w|
  {
    if w == [] {
      assert pending + w == pending;
    } else {
      assert pending + [w[0]] + w[1..] == pending + w;
      TokensOfWord(w[1..], pending + [w[0]]);
    }
  }

  /** `" ".join(words).split()` gives the words back when each is a token. */
  lemma {:induction false} SplitWhitespaceJoin(words: seq<string>)
    requires forall k :: 0 <= k < |words| ==> IsWord(words[k])
    ensures SplitWhitespace(JoinWith(words, " ")) == words
  {
    if |words| >= 1 {
      TokensOfWord(words[0], "");
      assert "" + words[0] == words[0];
    }
    if |words| > 1 {
      SplitWhitespaceJoin(words[1..]);
      SplitWhitespaceAcross(words[0], ' ', JoinWith(words[1..], " "));
      assert words == [words[0]] + words[1..];
    }
  }

  /** Python's `s.rstrip(c)`: the longest prefix of `s` that does not end in `c`,
      everything cut off being `c`. */
  function RStrip(s: string, c: char): (r: string)
    ensures r <= s
    ensures r == "" || r[|r| - 1] != c
    ensures forall i :: |r| <= i < |s| ==> s[i] == c
  {
    if s != "" && s[|s| - 1] == c then RStrip(s[..|s| - 1], c) else s
  }

  /** Python's `s.replace(a, b)` for one-character `a` and `b`. */
  function ReplaceChar(s: string, a: char, b: char): (r: string)
    ensures |r| == |s|
    ensures a != b ==> a !in r
  {
    seq(|s|, i requires 0 <= i < |s| => if s[i] == a then b else s[i])
  }
}
