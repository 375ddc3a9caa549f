/** Matching routing keys against binding patterns, and what the patterns mean.

    Strings are the octets Go indexes; each char stands for one octet. */
module Topics {

  // ---------- splitting ----------

  /** strings.Split on a one-octet separator. */
  function Split(s: string, sep: char): (words: seq<string>)
    ensures |words| >= 1
  {
    if s == [] then [""]
    else
      var more := Split(s[1..], sep);
      if s[0] == sep then [""] + more else [[s[0]] + more[0]] + more[1..]
  }

  function Join(words: seq<string>, sep: char): string
    requires |words| >= 1
  {
    if |words| == 1 then words[0] else words[0] + [sep] + Join(words[1..], sep)
  }

  ghost predicate Words(words: seq<string>, sep: char) {
    |words| >= 1 && forall i :: 0 <= i < |words| ==> sep !in words[i]
  }

  /** Splitting gives separator-free words that join to the string. */
  lemma {:induction false} SplitJoins(s: string, sep: char)
    ensures Words(Split(s, sep), sep) && Join(Split(s, sep), sep) == s
  {
    if s != [] {
      var more := Split(s[1..], sep);
      SplitJoins(s[1..], sep);
      if s[0] == sep {
        assert Join([""] + more, sep) == "" + [sep] + Join(more, sep) by { assert ([""] + more)[1..] == more; }
      } else {
        var words := [[s[0]] + more[0]] + more[1..];
        assert words[1..] == more[1..];
        assert Join(words, sep) == [s[0]] + Join(more, sep);
      }
    }
  }

  /** And it is the only way to do so. */
  lemma {:induction false} JoinSplits(words: seq<string>, sep: char)
    requires Words(words, sep)
    ensures Split(Join(words, sep), sep) == words
    decreases |words|, |words[0]|
  {
    var s := Join(words, sep);
    if words[0] != [] {
      var rest := [words[0][1..]] + words[1..];
      assert rest[1..] == words[1..];
      assert s == [words[0][0]] + Join(rest, sep);
      JoinSplits(rest, sep);
      assert words[0] == [words[0][0]] + rest[0];
      assert words == [[words[0][0]] + rest[0]] + rest[1..];
    } else if |words| > 1 {
      assert s == [sep] + Join(words[1..], sep);
      JoinSplits(words[1..], sep);
      assert words == [""] + words[1..];
    } else {
      assert words == [""];
    }
  }

  /** A string splits into more than one word exactly when it contains the separator. */
  lemma {:induction false} SplitLengthIffContains(s: string, sep: char)
    ensures |Split(s, sep)| > 1 <==> sep in s
  {
    if s != [] {
      SplitLengthIffContains(s[1..], sep);
      assert s == [s[0]] + s[1..];
    }
  }

  // ---------- % inside a word ----------

  predicate OnlyPercents(p: string, from: nat)
    requires from <= |p|
  {
    forall i :: from <= i < |p| ==> p[i] == '%'
  }

  /** matchPercentPattern. */
  predicate MatchPercentPattern(text: string, pattern: string, textIdx: nat, patternIdx: nat)
    requires textIdx <= |text| && patternIdx <= |pattern|
    decreases |text| - textIdx + |pattern| - patternIdx
  {
    if patternIdx >= |pattern| then textIdx >= |text|
    else if textIdx >= |text| then OnlyPercents(pattern, patternIdx)
    else if pattern[patternIdx] == '%' then
      MatchPercentPattern(text, pattern, textIdx, patternIdx + 1)
      || MatchPercentPattern(text, pattern, textIdx + 1, patternIdx)
    else
      pattern[patternIdx] == text[textIdx] && MatchPercentPattern(text, pattern, textIdx + 1, patternIdx + 1)
  }

  /** The literals with a filling between each two. */
  function Weave(literals: seq<string>, fillings: seq<string>): string
    requires |literals| == |fillings| + 1
  {
    literals[0] + (if fillings == [] then [] else fillings[0] + Weave(literals[1..], fillings[1..]))
  }

  predicate FilledBy(t: string, p: string, fillings: seq<string>) {
    |Split(p, '%')| == |fillings| + 1 && t == Weave(Split(p, '%'), fillings)
  }

  /** The language of a pattern word: its literals between the % signs, with anything filled in. */
  ghost predicate InLanguage(t: string, p: string) {
    exists fillings: seq<string> :: FilledBy(t, p, fillings)
  }

  lemma LanguageEmpty(t: string)
    ensures InLanguage(t, "") <==> t == ""
  {
    if t == "" {
      assert FilledBy(t, "", []);
    }
  }

  lemma LanguageLiteral(t: string, p: string)
    requires p != "" && p[0] != '%'
    ensures InLanguage(t, p) <==> t != "" && t[0] == p[0] && InLanguage(t[1..], p[1..])
  {
    var ls, more := Split(p, '%'), Split(p[1..], '%');
    assert ls[1..] == more[1..] && ls[0] == [p[0]] + more[0];
    if InLanguage(t, p) {
      var fs :| FilledBy(t, p, fs);
      assert Weave(ls, fs) == [p[0]] + Weave(more, fs);
      assert FilledBy(t[1..], p[1..], fs);
    }
    if t != "" && t[0] == p[0] && InLanguage(t[1..], p[1..]) {
      var fs :| FilledBy(t[1..], p[1..], fs);
      assert Weave(ls, fs) == [p[0]] + Weave(more, fs);
      assert t == [t[0]] + t[1..];
      assert FilledBy(t, p, fs);
    }
  }

  /** A leading % takes some number of characters. */
  lemma LanguagePercentTakes(t: string, p: string)
    requires p != "" && p[0] == '%'
    ensures InLanguage(t, p) <==> exists k :: 0 <= k <= |t| && InLanguage(t[k..], p[1..])
  {
    hide FilledBy;
    if InLanguage(t, p) {
      var fs :| FilledBy(t, p, fs);
      var k := PercentTakes(t, p, fs);
    }
    if exists k :: 0 <= k <= |t| && InLanguage(t[k..], p[1..]) {
      var k :| 0 <= k <= |t| && InLanguage(t[k..], p[1..]);
      var gs :| FilledBy(t[k..], p[1..], gs);
      PercentGives(t, p, k, gs);
    }
  }

  lemma PercentTakes(t: string, p: string, fs: seq<string>) returns (k: nat)
    requires p != "" && p[0] == '%' && FilledBy(t, p, fs)
    ensures k <= |t| && fs != [] && FilledBy(t[k..], p[1..], fs[1..])
  {
    var more := Split(p[1..], '%');
    assert Split(p, '%')[1..] == more;
    k := |fs[0]|;
    assert t == "" + (fs[0] + Weave(more, fs[1..]));
    assert t[k..] == Weave(more, fs[1..]);
  }

  lemma PercentGives(t: string, p: string, k: nat, gs: seq<string>)
    requires p != "" && p[0] == '%' && k <= |t| && FilledBy(t[k..], p[1..], gs)
    ensures FilledBy(t, p, [t[..k]] + gs)
  {
    var fs := [t[..k]] + gs;
    assert Split(p, '%')[1..] == Split(p[1..], '%') && fs[1..] == gs;
    assert t == t[..k] + t[k..];
  }

  lemma LanguagePercent(t: string, p: string)
    requires p != "" && p[0] == '%'
    ensures InLanguage(t, p) <==> InLanguage(t, p[1..]) || (t != "" && InLanguage(t[1..], p))
  {
    LanguagePercentTakes(t, p);
    assert t[0..] == t;
    if t != "" {
      LanguagePercentTakes(t[1..], p);
      assert forall k :: 0 < k <= |t| ==> t[k..] == t[1..][k - 1..];
      if InLanguage(t[1..], p) {
        var k :| 0 <= k <= |t[1..]| && InLanguage(t[1..][k..], p[1..]);
        assert InLanguage(t[k + 1..], p[1..]);
      }
      if InLanguage(t, p) && !InLanguage(t, p[1..]) {
        var k :| 0 <= k <= |t| && InLanguage(t[k..], p[1..]);
        assert InLanguage(t[1..][k - 1..], p[1..]);
      }
    }
  }

  lemma {:induction false} LanguageOfNothing(p: string, from: nat)
    requires from <= |p|
    ensures InLanguage("", p[from..]) <==> OnlyPercents(p, from)
    decreases |p| - from
  {
    if from == |p| {
      LanguageEmpty("");
    } else if p[from] == '%' {
      LanguagePercent("", p[from..]);
      LanguageOfNothing(p, from + 1);
      assert p[from..][1..] == p[from + 1..];
    } else {
      LanguageLiteral("", p[from..]);
    }
  }

  /** The backtracking matcher decides the language. */
  lemma {:induction false} PercentMatcherCorrect(t: string, p: string, ti: nat, pi: nat)
    requires ti <= |t| && pi <= |p|
    ensures MatchPercentPattern(t, p, ti, pi) <==> InLanguage(t[ti..], p[pi..])
    decreases |t| - ti + |p| - pi
  {
    if pi == |p| {
      assert p[pi..] == "";
      LanguageEmpty(t[ti..]);
    } else if ti == |t| {
      assert t[ti..] == "";
      LanguageOfNothing(p, pi);
    } else {
      assert t[ti..][1..] == t[ti + 1..] && p[pi..][1..] == p[pi + 1..];
      if p[pi] == '%' {
        LanguagePercent(t[ti..], p[pi..]);
        PercentMatcherCorrect(t, p, ti, pi + 1);
        PercentMatcherCorrect(t, p, ti + 1, pi);
      } else {
        LanguageLiteral(t[ti..], p[pi..]);
        PercentMatcherCorrect(t, p, ti + 1, pi + 1);
      }
    }
  }

  // ---------- words ----------

  predicate MatchTokenWithPercent(token: string, pattern: string) {
    MatchPercentPattern(token, pattern, 0, 0)
  }

  predicate OnlyHashes(b: seq<string>, from: nat)
    requires from <= |b|
  {
    forall i :: from <= i < |b| ==> b[i] == "#"
  }

  /** matchTokens. */
  predicate MatchTokens(r: seq<string>, b: seq<string>, rIdx: nat, bIdx: nat)
    requires rIdx <= |r| && bIdx <= |b|
    decreases |r| - rIdx + |b| - bIdx
  {
    if bIdx >= |b| then rIdx >= |r|
    else if rIdx >= |r| then OnlyHashes(b, bIdx)
    else if b[bIdx] == "#" then MatchTokens(r, b, rIdx, bIdx + 1) || MatchTokens(r, b, rIdx + 1, bIdx)
    else if b[bIdx] == "*" then MatchTokens(r, b, rIdx + 1, bIdx + 1)
    else if '%' in b[bIdx] then
      MatchTokenWithPercent(r[rIdx], b[bIdx]) && MatchTokens(r, b, rIdx + 1, bIdx + 1)
    else
      r[rIdx] == b[bIdx] && MatchTokens(r, b, rIdx + 1, bIdx + 1)
  }

  /** The single words a pattern word other than # stands for. */
  ghost predicate AcceptsWord(p: string, w: string) {
    if p == "*" then true else if '%' in p then InLanguage(w, p) else w == p
  }

  /** The stretches of words a pattern word stands for: any for #, otherwise one word. */
  ghost predicate Accepts(p: string, segment: seq<string>) {
    p == "#" || (|segment| == 1 && AcceptsWord(p, segment[0]))
  }

  function Concat(segments: seq<seq<string>>): seq<string> {
    if segments == [] then [] else segments[0] + Concat(segments[1..])
  }

  /** The segments are r cut into consecutive pieces, one for each pattern word, which accepts it. */
  ghost predicate Divides(r: seq<string>, b: seq<string>, segments: seq<seq<string>>) {
    && |segments| == |b| && Concat(segments) == r
    && forall k :: 0 <= k < |b| ==> Accepts(b[k], segments[k])
  }

  ghost predicate TopicMatches(r: seq<string>, b: seq<string>) {
    exists segments: seq<seq<string>> :: Divides(r, b, segments)
  }

  lemma TopicEmpty(r: seq<string>)
    ensures TopicMatches(r, []) <==> r == []
  {
    if r == [] {
      assert Divides(r, [], []);
    }
  }

  /** The first pattern word takes a first segment and the rest match the rest. */
  lemma TopicFirst(r: seq<string>, b: seq<string>)
    requires b != []
    ensures TopicMatches(r, b) <==> exists k :: 0 <= k <= |r| && Accepts(b[0], r[..k]) && TopicMatches(r[k..], b[1..])
  {
    if TopicMatches(r, b) {
      var segments :| Divides(r, b, segments);
      var k := |segments[0]|;
      assert r[..k] == segments[0] && r[k..] == Concat(segments[1..]);
      assert Divides(r[k..], b[1..], segments[1..]);
    }
    if exists k :: 0 <= k <= |r| && Accepts(b[0], r[..k]) && TopicMatches(r[k..], b[1..]) {
      var k :| 0 <= k <= |r| && Accepts(b[0], r[..k]) && TopicMatches(r[k..], b[1..]);
      var rest :| Divides(r[k..], b[1..], rest);
      var segments := [r[..k]] + rest;
      assert segments[1..] == rest && r == r[..k] + r[k..];
      assert Divides(r, b, segments);
    }
  }

  lemma TopicWord(r: seq<string>, b: seq<string>)
    requires b != [] && b[0] != "#"
    ensures TopicMatches(r, b) <==> r != [] && AcceptsWord(b[0], r[0]) && TopicMatches(r[1..], b[1..])
  {
    TopicFirst(r, b);
    if r != [] && AcceptsWord(b[0], r[0]) && TopicMatches(r[1..], b[1..]) {
      assert Accepts(b[0], r[..1]);
    }
  }

  lemma TopicHash(r: seq<string>, b: seq<string>)
    requires b != [] && b[0] == "#"
    ensures TopicMatches(r, b) <==> TopicMatches(r, b[1..]) || (r != [] && TopicMatches(r[1..], b))
  {
    TopicFirst(r, b);
    assert r[0..] == r;
    if TopicMatches(r, b[1..]) {
      assert Accepts(b[0], r[..0]);
    }
    if r != [] {
      TopicFirst(r[1..], b);
      if TopicMatches(r[1..], b) {
        var k :| 0 <= k <= |r[1..]| && Accepts(b[0], r[1..][..k]) && TopicMatches(r[1..][k..], b[1..]);
        assert r[1..][k..] == r[k + 1..] && Accepts(b[0], r[..k + 1]);
      }
      if TopicMatches(r, b) && !TopicMatches(r, b[1..]) {
        var k :| 0 <= k <= |r| && Accepts(b[0], r[..k]) && TopicMatches(r[k..], b[1..]);
        assert r[1..][k - 1..] == r[k..] && Accepts(b[0], r[1..][..k - 1]);
      }
    }
  }

  lemma {:induction false} TopicOfNothing(b: seq<string>, from: nat)
    requires from <= |b|
    ensures TopicMatches([], b[from..]) <==> OnlyHashes(b, from)
    decreases |b| - from
  {
    if from == |b| {
      TopicEmpty([]);
    } else if b[from] == "#" {
      TopicHash([], b[from..]);
      TopicOfNothing(b, from + 1);
      assert b[from..][1..] == b[from + 1..];
    } else {
      TopicWord([], b[from..]);
    }
  }

  /** The backtracking matcher decides whether the key divides into the pattern. */
  lemma {:induction false} WordMatcherCorrect(r: seq<string>, b: seq<string>, ri: nat, bi: nat)
    requires ri <= |r| && bi <= |b|
    ensures MatchTokens(r, b, ri, bi) <==> TopicMatches(r[ri..], b[bi..])
    decreases |r| - ri + |b| - bi
  {
    if bi == |b| {
      assert b[bi..] == [];
      TopicEmpty(r[ri..]);
    } else if ri == |r| {
      assert r[ri..] == [];
      TopicOfNothing(b, bi);
    } else {
      assert r[ri..][1..] == r[ri + 1..] && b[bi..][1..] == b[bi + 1..];
      if b[bi] == "#" {
        TopicHash(r[ri..], b[bi..]);
        WordMatcherCorrect(r, b, ri, bi + 1);
        WordMatcherCorrect(r, b, ri + 1, bi);
      } else {
        TopicWord(r[ri..], b[bi..]);
        WordMatcherCorrect(r, b, ri + 1, bi + 1);
        PercentMatcherCorrect(r[ri], b[bi], 0, 0);
        assert r[ri][0..] == r[ri] && b[bi][0..] == b[bi];
      }
    }
  }

  // ---------- the guard ----------

  /** Match: the guard rejects a single-word key against a pattern of several words. */
  predicate Match(routingKey: string, bindingPattern: string) {
    var r, b := Split(routingKey, '.'), Split(bindingPattern, '.');
    if |b| > 1 && |r| == 1 && !('.' in routingKey) then false
    else MatchTokens(r, b, 0, 0)
  }

  /** The topic relation, with no guard. */
  ghost predicate Topic(routingKey: string, bindingPattern: string) {
    TopicMatches(Split(routingKey, '.'), Split(bindingPattern, '.'))
  }

  predicate Guarded(routingKey: string, bindingPattern: string) {
    '.' !in routingKey && '.' in bindingPattern
  }

  /** Match is the topic relation on all inputs outside the guard, and false inside it. */
  lemma MatchIffTopicUnguarded(key: string, pat: string)
    ensures Match(key, pat) <==> Topic(key, pat) && !Guarded(key, pat)
  {
    var r, b := Split(key, '.'), Split(pat, '.');
    SplitLengthIffContains(key, '.');
    SplitLengthIffContains(pat, '.');
    WordMatcherCorrect(r, b, 0, 0);
    assert r[0..] == r && b[0..] == b;
  }

  /** Position i holds the only pattern word that is not #, and it accepts w. */
  ghost predicate OnlyWordAt(b: seq<string>, i: nat, w: string) {
    && i < |b| && b[i] != "#" && AcceptsWord(b[i], w)
    && forall j :: 0 <= j < |b| && j != i ==> b[j] == "#"
  }

  /** One word matches a pattern when all its words but at most one are #, and that one, if there,
      accepts the word. */
  lemma {:induction false} SingleWordTopic(w: string, b: seq<string>)
    requires b != []
    ensures TopicMatches([w], b) <==> OnlyHashes(b, 0) || exists i: nat :: OnlyWordAt(b, i, w)
  {
    var rest := b[1..];
    assert forall j :: 0 < j < |b| ==> b[j] == rest[j - 1];
    TopicOfNothing(rest, 0);
    assert rest[0..] == rest && [w][1..] == [];
    if b[0] == "#" {
      TopicHash([w], b);
      TopicOfNothing(b, 0);
      assert b[0..] == b;
      if rest == [] {
        TopicEmpty([w]);
        assert OnlyHashes(b, 0);
      } else {
        SingleWordTopic(w, rest);
        assert forall i: nat :: OnlyWordAt(rest, i, w) ==> OnlyWordAt(b, i + 1, w);
        assert forall i: nat :: OnlyWordAt(b, i, w) ==> i > 0 && OnlyWordAt(rest, i - 1, w);
      }
    } else {
      TopicWord([w], b);
      assert OnlyWordAt(b, 0, w) <==> AcceptsWord(b[0], w) && OnlyHashes(rest, 0);
      assert forall i: nat :: OnlyWordAt(b, i, w) ==> i == 0;
    }
  }

  /** Exactly where the guard changes the answer: a single-word key, a pattern of several words of
      which all are # but at most one, which accepts the key. */
  lemma GuardExactEffect(key: string, pat: string)
    ensures var b := Split(pat, '.');
      Match(key, pat) != Topic(key, pat) <==>
        Guarded(key, pat) && (OnlyHashes(b, 0) || exists i: nat :: OnlyWordAt(b, i, key))
  {
    var r, b := Split(key, '.'), Split(pat, '.');
    MatchIffTopicUnguarded(key, pat);
    if Guarded(key, pat) {
      SplitLengthIffContains(key, '.');
      SplitJoins(key, '.');
      assert r == [key];
      SingleWordTopic(key, b);
    }
  }
}
