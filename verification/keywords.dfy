/** Keyword extraction of `CompanyDataCollector.extract_industry_keywords`: the gathered texts are
    joined with spaces, lower-cased and split on whitespace; every word that is not a stopword and
    is longer than three characters is counted in a dictionary; the 50 most frequent words are
    kept, ties in the order in which the words were first seen. */
module Keywords {
  import opened Text
  import opened OrderedMaps
  import opened Ranking

  const Stopwords: seq<string> :=
    ["the", "and", "or", "in", "on", "at", "to", "a", "an", "of", "for", "with", "by"]

  /** How many keywords are kept. */
  const TopN: nat := 50

  /** A word that is counted. */
  predicate Qualifies(w: string) {
    w !in Stopwords && |w| > 3
  }

  /** Every stopword but "with" is at most three characters long, so the length test alone
      already drops it: "with" is the only word the stopword list removes. */
  lemma OnlyWithIsStopped(w: string)
    ensures Qualifies(w) <==> |w| > 3 && w != "with"
  {
    if |w| > 3 && w != "with" {
      forall s | s in Stopwords
        ensures s != w
      {
        assert |s| <= 3 || s == "with";
      }
    }
  }

  /** `" ".join(texts).lower().split()`. */
  function TextWords(texts: seq<string>): (words: seq<string>)
    ensures forall k :: 0 <= k < |words| ==> IsWord(words[k])
  {
    SplitWhitespace(Lower(JoinWith(texts, " ")))
  }

  /** Each text contributes its own words: joining with a space never glues two words together. */
  lemma TextWordsAppend(a: seq<string>, b: seq<string>)
    ensures TextWords(a + b) == TextWords(a) + TextWords(b)
  {
    if a == [] {
      assert a + b == b;
    } else if b == [] {
      assert a + b == a;
    } else {
      var ja, jb := JoinWith(a, " "), JoinWith(b, " ");
      JoinAppend(a, b, " ");
      LowerAppend(ja + " ", jb);
      LowerAppend(ja, " ");
      assert Lower(" ") == [' '];
      SplitWhitespaceAcross(Lower(ja), ' ', Lower(jb));
    }
  }

  /** An empty text (a website section without text) adds no word. */
  lemma EmptyTextAddsNoWords(texts: seq<string>)
    ensures TextWords(texts + [""]) == TextWords(texts)
  {
    TextWordsAppend(texts, [""]);
    assert TextWords([""]) == [];
  }

  /** No word occurs twice. */
  ghost predicate Distinct(ws: seq<string>) {
    forall i, j :: 0 <= i < j < |ws| ==> ws[i] != ws[j]
  }

  /** `a` occurs in `words` before any occurrence of `b`. */
  ghost predicate SeenBefore(words: seq<string>, a: string, b: string) {
    exists p :: 0 <= p < |words| && words[p] == a && b !in words[..p]
  }

  function Count(words: seq<string>, w: string): nat {
    multiset(words)[w]
  }

  /** Word frequencies do not depend on the order in which the texts were gathered. */
  lemma WordCountsIgnoreTextOrder(a: seq<string>, b: seq<string>, w: string)
    ensures Count(TextWords(a + b), w) == Count(TextWords(b + a), w)
  {
    TextWordsAppend(a, b);
    TextWordsAppend(b, a);
  }

  /** The counted words, each once, in the order in which they first occur: the key order of
      the frequency dictionary. */
  function FirstOccurrences(words: seq<string>): seq<string> {
    if words == [] then []
    else
      var prior := FirstOccurrences(words[..|words| - 1]);
      var w := words[|words| - 1];
      if Qualifies(w) && w !in prior then prior + [w] else prior
  }

  lemma {:induction false} FirstOccurrencesMembers(words: seq<string>)
    ensures forall w :: w in FirstOccurrences(words) <==> Qualifies(w) && w in words
  {
    if words != [] {
      var pre := words[..|words| - 1];
      FirstOccurrencesMembers(pre);
      assert words == pre + [words[|words| - 1]];
    }
  }

  lemma {:induction false} FirstOccurrencesDistinct(words: seq<string>)
    ensures Distinct(FirstOccurrences(words))
  {
    if words != [] {
      var pre := words[..|words| - 1];
      var prior := FirstOccurrences(pre);
      var fo := FirstOccurrences(words);
      FirstOccurrencesDistinct(pre);
      forall i, j | 0 <= i < j < |fo|
        ensures fo[i] != fo[j]
      {
        if j == |prior| {
          assert fo[i] == prior[i] && fo[j] !in prior;
        } else {
          assert fo[i] == prior[i] && fo[j] == prior[j];
          assert prior[i] != prior[j];
        }
      }
    }
  }

  /** Of two counted words, the one listed first occurs in `words` before the other one does. */
  lemma {:induction false} FirstOccurrencesInOrder(words: seq<string>)
    ensures forall i, j :: 0 <= i < j < |FirstOccurrences(words)| ==>
      SeenBefore(words, FirstOccurrences(words)[i], FirstOccurrences(words)[j])
  {
    if words != [] {
      var pre := words[..|words| - 1];
      var w := words[|words| - 1];
      var prior := FirstOccurrences(pre);
      var fo := FirstOccurrences(words);
      FirstOccurrencesInOrder(pre);
      FirstOccurrencesMembers(pre);
      forall i, j | 0 <= i < j < |fo|
        ensures SeenBefore(words, fo[i], fo[j])
      {
        assert fo[i] == prior[i];
        if j < |prior| {
          assert fo[j] == prior[j];
          assert SeenBefore(pre, prior[i], prior[j]);
          var p :| 0 <= p < |pre| && pre[p] == prior[i] && prior[j] !in pre[..p];
          assert words[..p] == pre[..p];
          assert words[p] == fo[i];
        } else {
          assert fo[j] == w && w !in pre;
          assert prior[i] in pre;
          var p :| 0 <= p < |pre| && pre[p] == prior[i];
          assert words[..p] == pre[..p];
          assert words[p] == fo[i];
        }
      }
    }
  }

  /** The `word_freq` dictionary: each counted word, in first-occurrence order, with the number of
      times it occurs. */
  function Frequencies(words: seq<string>): (freq: OrderedMap<string, nat>)
    ensures freq.Valid()
  {
    FirstOccurrencesDistinct(words);
    var fo := FirstOccurrences(words);
    var counts := map w | w in fo :: Count(words, w);
    assert counts.Keys == set w | w in fo;
    OrderedMap(fo, counts)
  }

  /** One more word updates the dictionary as `word_freq[word] = word_freq.get(word, 0) + 1`. */
  lemma FrequenciesStep(words: seq<string>, w: string)
    ensures Frequencies(words + [w]) ==
      if Qualifies(w) then Frequencies(words).Put(w, Frequencies(words).Get(w, 0) + 1)
      else Frequencies(words)
  {
    var ws := words + [w];
    assert ws[..|ws| - 1] == words;
    var before, after := Frequencies(words), Frequencies(ws);
    FirstOccurrencesMembers(words);
    if Qualifies(w) {
      FrequenciesStepCounted(words, w);
    } else {
      assert after.keys == before.keys;
      assert after.entries == before.entries by {
        forall v | v in after.entries
          ensures after.entries[v] == before.entries[v]
        {
          assert Count(ws, v) == Count(words, v);
        }
      }
    }
  }

  lemma FrequenciesStepCounted(words: seq<string>, w: string)
    requires Qualifies(w)
    ensures Frequencies(words + [w]) == Frequencies(words).Put(w, Frequencies(words).Get(w, 0) + 1)
  {
    var ws := words + [w];
    assert ws[..|ws| - 1] == words;
    FirstOccurrencesMembers(words);
    var before, after := Frequencies(words), Frequencies(ws);
    var put := before.Put(w, before.Get(w, 0) + 1);
    assert after.keys == put.keys;
    assert w !in before.entries ==> Count(words, w) == 0;
    assert after.entries.Keys == put.entries.Keys;
    forall v | v in after.entries
      ensures after.entries[v] == put.entries[v]
    {
      assert Count(ws, v) == Count(words, v) + if v == w then 1 else 0;
    }
    assert after.entries == put.entries;
  }

  /** The counting loop of `extract_industry_keywords`. */
  method CountFrequencies(words: seq<string>) returns (freq: OrderedMap<string, nat>)
    ensures freq == Frequencies(words)
  {
    freq := Empty();
    for i := 0 to |words|
      invariant freq == Frequencies(words[..i])
    {
      var word := words[i];
      FrequenciesStep(words[..i], word);
      assert words[..i + 1] == words[..i] + [word];
      if Qualifies(word) {
        freq := freq.Put(word, freq.Get(word, 0) + 1);
      }
    }
    assert words[..|words|] == words;
  }

  /** `sorted(word_freq.items(), key=lambda x: x[1], reverse=True)`. */
  function Ranked(words: seq<string>): seq<(string, nat)> {
    SortByCount(Frequencies(words).Items())
  }

  /** `[:50]`. */
  function Head<T>(s: seq<T>, n: nat): seq<T> {
    if |s| <= n then s else s[..n]
  }

  function KeysOf(s: seq<(string, nat)>): seq<string> {
    seq(|s|, i requires 0 <= i < |s| => s[i].0)
  }

  /** The `industry_keywords` list computed from the words of the gathered texts. */
  function TopKeywords(words: seq<string>): (keywords: seq<string>)
    ensures |keywords| <= TopN
  {
    KeysOf(Head(Ranked(words), TopN))
  }

  /** The words of `ws` whose count in `words` is `c`, in their order in `ws`. */
  function OfCount(ws: seq<string>, words: seq<string>, c: nat): seq<string> {
    if ws == [] then [] else (if Count(words, ws[0]) == c then [ws[0]] else []) + OfCount(ws[1..], words, c)
  }

  lemma RankedFacts(words: seq<string>)
    ensures var ranked := Ranked(words);
      && NonIncreasing(ranked)
      && DistinctKeys(ranked)
      && (forall e :: e in ranked ==> e.0 in FirstOccurrences(words) && e.1 == Count(words, e.0))
      && (forall w :: w in FirstOccurrences(words) ==> (w, Count(words, w)) in ranked)
  {
    var fo := FirstOccurrences(words);
    var items := Frequencies(words).Items();
    var ranked := Ranked(words);
    FirstOccurrencesDistinct(words);
    assert DistinctKeys(items) by {
      forall i, j | 0 <= i < j < |items| ensures items[i].0 != items[j].0 {
        assert items[i].0 == fo[i] && items[j].0 == fo[j];
      }
    }
    SortByCountNonIncreasing(items);
    SortByCountDistinctKeys(items);
    forall e | e in ranked
      ensures e.0 in fo && e.1 == Count(words, e.0)
    {
      assert e in multiset(ranked);
      assert e in items;
    }
    forall w | w in fo
      ensures (w, Count(words, w)) in ranked
    {
      var i :| 0 <= i < |fo| && fo[i] == w;
      assert items[i] == (w, Count(words, w));
      assert items[i] in multiset(items);
    }
  }

  /** At most 50 keywords, none twice, each a counted word of the texts. */
  lemma TopKeywordsWellFormed(words: seq<string>)
    ensures var r := TopKeywords(words);
      && |r| <= TopN
      && Distinct(r)
      && (forall w :: w in r ==> Qualifies(w) && w in words)
  {
    var ranked := Ranked(words);
    var r := TopKeywords(words);
    RankedFacts(words);
    FirstOccurrencesMembers(words);
    forall w | w in r
      ensures Qualifies(w) && w in words
    {
      var i :| 0 <= i < |r| && r[i] == w;
      assert ranked[i] in ranked;
    }
  }

  /** Keywords come in non-increasing frequency order. */
  lemma TopKeywordsByFrequency(words: seq<string>)
    ensures var r := TopKeywords(words);
      forall i, j :: 0 <= i < j < |r| ==> Count(words, r[i]) >= Count(words, r[j])
  {
    var ranked := Ranked(words);
    RankedFacts(words);
    assert forall i :: 0 <= i < |ranked| ==> ranked[i] in ranked;
  }

  /** A counted word is left out only when 50 keywords were kept, each at least as frequent. */
  lemma TopKeywordsComplete(words: seq<string>, w: string)
    requires Qualifies(w) && w in words
    requires w !in TopKeywords(words)
    ensures |TopKeywords(words)| == TopN
    ensures forall k :: k in TopKeywords(words) ==> Count(words, k) >= Count(words, w)
  {
    var ranked := Ranked(words);
    var r := TopKeywords(words);
    RankedFacts(words);
    FirstOccurrencesMembers(words);
    var p :| 0 <= p < |ranked| && ranked[p] == (w, Count(words, w));
    forall i | 0 <= i < |r|
      ensures ranked[i].0 != w
    {
      assert r[i] == ranked[i].0;
    }
    assert |r| <= p;
    forall k | k in r
      ensures Count(words, k) >= Count(words, w)
    {
      var i :| 0 <= i < |r| && r[i] == k;
      assert ranked[i] in ranked;
    }
  }

  lemma {:induction false} KeysOfWithCount(s: seq<(string, nat)>, words: seq<string>, c: nat)
    requires forall e :: e in s ==> e.1 == Count(words, e.0)
    ensures KeysOf(WithCount(s, c)) == OfCount(KeysOf(s), words, c)
  {
    if s != [] {
      KeysOfWithCount(s[1..], words, c);
      assert s[0] in s;
      assert KeysOf(s)[1..] == KeysOf(s[1..]);
      var head: seq<(string, nat)> := if s[0].1 == c then [s[0]] else [];
      assert KeysOf(head + WithCount(s[1..], c)) == KeysOf(head) + KeysOf(WithCount(s[1..], c));
    }
  }

  /** Ties keep first-occurrence order: for every frequency, the keywords with that frequency are
      the first words of that frequency in the order they were first seen. */
  lemma TopKeywordsTies(words: seq<string>, c: nat)
    ensures OfCount(TopKeywords(words), words, c) <= OfCount(FirstOccurrences(words), words, c)
  {
    var items := Frequencies(words).Items();
    var ranked := Ranked(words);
    var top := Head(ranked, TopN);
    RankedFacts(words);
    assert forall e :: e in top ==> e in ranked;
    forall e | e in items
      ensures e.1 == Count(words, e.0)
    {
    }
    KeysOfWithCount(top, words, c);
    KeysOfWithCount(items, words, c);
    assert KeysOf(items) == FirstOccurrences(words);
    WithCountOfPrefix(ranked, |top|, c);
    assert ranked[..|top|] == top;
    SortByCountStable(items, c);
    var a, b := WithCount(top, c), WithCount(items, c);
    assert a <= b;
    assert KeysOf(a) <= KeysOf(b);
  }
}
