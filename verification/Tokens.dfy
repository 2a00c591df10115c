/** Splitting text into words, joining words, and replacing runs of characters. */
module Tokens {
  import opened Text

  function IsBlank(c: char): bool { c == ' ' }

  /** `sep.join(parts)` for a one-space separator. */
  function Join(parts: seq<string>): string {
    if parts == [] then []
    else if |parts| == 1 then parts[0]
    else parts[0] + " " + Join(parts[1..])
  }

  /** `re.sub("[...]+", " ", s)`: every maximal run of p-characters becomes one space. */
  function SubRuns(s: string, p: char -> bool): string {
    if s == [] then []
    else if !p(s[0]) then [s[0]] + SubRuns(s[1..], p)
    else if |s| > 1 && p(s[1]) then SubRuns(s[1..], p)
    else [' '] + SubRuns(s[1..], p)
  }

  /** Length of the leading run of characters outside sep. */
  function LeadingRun(s: string, sep: char -> bool): (k: nat)
    ensures k <= |s|
    ensures forall i | 0 <= i < k :: !sep(s[i])
    ensures k < |s| ==> sep(s[k])
  {
    if s == [] || sep(s[0]) then 0 else 1 + LeadingRun(s[1..], sep)
  }

  /** `s.split(c)`: the parts between single separators, empty parts included. */
  function Split(s: string, sep: char -> bool): (parts: seq<string>)
    ensures parts != []
    decreases |s|
  {
    var k := LeadingRun(s, sep);
    if k == |s| then [s] else [s[..k]] + Split(s[k + 1..], sep)
  }

  /** The maximal runs of characters outside sep: `[w for w in re.split(...) if w]`. */
  function Words(s: string, sep: char -> bool): seq<string>
    decreases |s|
  {
    if s == [] then []
    else if sep(s[0]) then Words(s[1..], sep)
    else
      var k := LeadingRun(s, sep);
      [s[..k]] + Words(s[k..], sep)
  }

  /** Drop the empty strings. */
  function NonEmpty(parts: seq<string>): seq<string> {
    if parts == [] then []
    else if parts[0] == [] then NonEmpty(parts[1..])
    else [parts[0]] + NonEmpty(parts[1..])
  }

  /** A non-empty word without separators. */
  predicate IsWord(w: string, sep: char -> bool) {
    w != [] && forall c | c in w :: !sep(c)
  }

  lemma {:induction false} WordsAreWords(s: string, sep: char -> bool)
    ensures forall w | w in Words(s, sep) :: IsWord(w, sep)
    decreases |s|
  {
    if s != [] {
      if sep(s[0]) {
        WordsAreWords(s[1..], sep);
      } else {
        WordsAreWords(s[LeadingRun(s, sep)..], sep);
      }
    }
  }

  lemma {:induction false} RunUntil(w: string, rest: string, sep: char -> bool)
    requires forall c | c in w :: !sep(c)
    requires rest != [] ==> sep(rest[0])
    ensures LeadingRun(w + rest, sep) == |w|
  {
    if w == [] {
      assert w + rest == rest;
    } else {
      assert w[0] in w;
      assert (w + rest)[1..] == w[1..] + rest;
      RunUntil(w[1..], rest, sep);
    }
  }

  /** A word followed by a separator (or the end) is the first word. */
  lemma WordsCons(w: string, rest: string, sep: char -> bool)
    requires IsWord(w, sep) && (rest != [] ==> sep(rest[0]))
    ensures Words(w + rest, sep) == [w] + Words(rest, sep)
  {
    RunUntil(w, rest, sep);
    assert w[0] in w;
    assert (w + rest)[..|w|] == w && (w + rest)[|w|..] == rest;
  }

  /** Splitting undoes joining. */
  lemma {:induction false} WordsOfJoin(ws: seq<string>, sep: char -> bool)
    requires sep(' ') && forall w | w in ws :: IsWord(w, sep)
    ensures Words(Join(ws), sep) == ws
  {
    if |ws| == 1 {
      WordsCons(ws[0], [], sep);
      assert ws[0] + [] == ws[0];
    } else if |ws| > 1 {
      var rest := Join(ws[1..]);
      assert Join(ws) == ws[0] + ([' '] + rest);
      WordsOfJoin(ws[1..], sep);
      WordsCons(ws[0], [' '] + rest, sep);
      assert ([' '] + rest)[1..] == rest;
    }
  }

  /** A part without separators, up to the first separator. */
  lemma SplitCons(w: string, c: char, rest: string, sep: char -> bool)
    requires sep(c) && forall d | d in w :: !sep(d)
    ensures Split(w + [c] + rest, sep) == [w] + Split(rest, sep)
  {
    RunUntil(w, [c] + rest, sep);
    var s := w + [c] + rest;
    assert s == w + ([c] + rest);
    assert s[..|w|] == w && s[|w| + 1..] == rest;
  }

  lemma {:induction false} SplitConcat(x: string, c: char, y: string, sep: char -> bool)
    requires sep(c)
    ensures Split(x + [c] + y, sep) == Split(x, sep) + Split(y, sep)
    decreases |x|
  {
    var k := LeadingRun(x, sep);
    if k == |x| {
      SplitCons(x, c, y, sep);
    } else {
      SplitConcat(x[k + 1..], c, y, sep);
      SplitConcatStep(x, k, c, y, sep, Split(x[k + 1..] + [c] + y, sep));
    }
  }

  lemma SplitConcatStep(x: string, k: nat, c: char, y: string, sep: char -> bool, rest: seq<string>)
    requires k == LeadingRun(x, sep) < |x|
    requires rest == Split(x[k + 1..] + [c] + y, sep) == Split(x[k + 1..], sep) + Split(y, sep)
    ensures Split(x + [c] + y, sep) == Split(x, sep) + Split(y, sep)
  {
    SplitHead(x, k, sep);
    Regroup(x, k, c, y);
    SplitCons(x[..k], x[k], x[k + 1..] + [c] + y, sep);
    ConsAppend(x[..k], Split(x[k + 1..], sep), Split(y, sep));
  }

  lemma SplitHead(x: string, k: nat, sep: char -> bool)
    requires k == LeadingRun(x, sep) < |x|
    ensures Split(x, sep) == [x[..k]] + Split(x[k + 1..], sep)
  {
  }

  lemma ConsAppend(w: string, a: seq<string>, b: seq<string>)
    ensures [w] + (a + b) == ([w] + a) + b
  {
  }

  lemma Regroup(x: string, k: nat, c: char, y: string)
    requires k < |x|
    ensures x + [c] + y == x[..k] + [x[k]] + (x[k + 1..] + [c] + y)
  {
  }

  lemma JoinCons(w: string, rest: seq<string>)
    ensures Join([w] + rest) == if rest == [] then w else w + " " + Join(rest)
  {
    assert ([w] + rest)[1..] == rest;
  }

  lemma {:induction false} JoinAppend(a: seq<string>, b: seq<string>)
    requires a != []
    ensures Join(a + b) == if b == [] then Join(a) else Join(a) + " " + Join(b)
  {
    if |a| == 1 {
      assert a + b == [a[0]] + b;
      JoinCons(a[0], b);
    } else {
      assert a + b == [a[0]] + (a[1..] + b);
      JoinCons(a[0], a[1..] + b);
      JoinAppend(a[1..], b);
    }
  }

  function MapAll(parts: seq<string>, f: string -> string): seq<string> {
    if parts == [] then [] else [f(parts[0])] + MapAll(parts[1..], f)
  }

  lemma {:induction false} MapAllAppend(a: seq<string>, b: seq<string>, f: string -> string)
    ensures MapAll(a + b, f) == MapAll(a, f) + MapAll(b, f)
  {
    if a == [] {
      assert a + b == b;
    } else {
      MapAllAppend(a[1..], b, f);
      assert (a + b)[1..] == a[1..] + b && (a + b)[0] == a[0];
      ConsAppend(f(a[0]), MapAll(a[1..], f), MapAll(b, f));
    }
  }

  lemma {:induction false} NonEmptyAppend(a: seq<string>, b: seq<string>)
    ensures NonEmpty(a + b) == NonEmpty(a) + NonEmpty(b)
  {
    if a == [] {
      assert a + b == b;
    } else {
      NonEmptyAppend(a[1..], b);
      assert (a + b)[1..] == a[1..] + b && (a + b)[0] == a[0];
      ConsAppend(a[0], NonEmpty(a[1..]), NonEmpty(b));
    }
  }

  lemma NonEmptyCons(w: string, rest: seq<string>)
    ensures NonEmpty([w] + rest) == if w == [] then NonEmpty(rest) else [w] + NonEmpty(rest)
  {
    assert ([w] + rest)[1..] == rest;
  }

  lemma WordsOfRun(s: string, p: char -> bool)
    requires LeadingRun(s, p) == |s|
    ensures Words(s, p) == if s == [] then [] else [s]
  {
    if s != [] {
      assert s[LeadingRun(s, p)..] == [] && s[..LeadingRun(s, p)] == s;
    }
  }

  lemma WordsHead(s: string, k: nat, q: char -> bool)
    requires s != [] && !q(s[0]) && k == LeadingRun(s, q)
    ensures Words(s, q) == [s[..k]] + Words(s[k..], q)
  {
  }

  lemma WordsSkip(s: string, q: char -> bool)
    requires s != [] && q(s[0])
    ensures Words(s, q) == Words(s[1..], q)
  {
  }

  lemma WordsPast(s: string, k: nat, q: char -> bool)
    requires 0 < k < |s| && q(s[k])
    ensures Words(s[k..], q) == Words(s[k + 1..], q)
  {
    WordsSkip(s[k..], q);
    assert s[k..][1..] == s[k + 1..];
  }

  lemma SplitWordsSkip(s: string, sep: char -> bool)
    requires s != [] && sep(s[0])
    requires NonEmpty(Split(s[1..], sep)) == Words(s[1..], sep)
    ensures NonEmpty(Split(s, sep)) == Words(s, sep)
  {
    SplitHead(s, 0, sep);
    NonEmptyCons(s[..0], Split(s[1..], sep));
    WordsSkip(s, sep);
  }

  lemma SplitWordsHead(s: string, k: nat, sep: char -> bool)
    requires 0 < k == LeadingRun(s, sep) < |s|
    requires NonEmpty(Split(s[k + 1..], sep)) == Words(s[k + 1..], sep)
    ensures NonEmpty(Split(s, sep)) == Words(s, sep)
  {
    SplitHead(s, k, sep);
    NonEmptyCons(s[..k], Split(s[k + 1..], sep));
    WordsHead(s, k, sep);
    WordsPast(s, k, sep);
  }

  /** The non-empty parts of a split are the words. */
  lemma {:induction false} SplitWords(s: string, sep: char -> bool)
    ensures NonEmpty(Split(s, sep)) == Words(s, sep)
    decreases |s|
  {
    var k := LeadingRun(s, sep);
    if k == |s| {
      WordsOfRun(s, sep);
    } else if k == 0 {
      SplitWords(s[1..], sep);
      SplitWordsSkip(s, sep);
    } else {
      SplitWords(s[k + 1..], sep);
      SplitWordsHead(s, k, sep);
    }
  }

  /** One more letter in front of some words: it joins the first one, or starts one. */
  function Prepended(c: char, words: seq<string>, joins: bool): seq<string> {
    if joins && words != [] then [[c] + words[0]] + words[1..] else [[c]] + words
  }

  lemma PrependedCons(c: char, w: string, words: seq<string>)
    ensures Prepended(c, [w] + words, true) == [[c] + w] + words
  {
    assert ([w] + words)[1..] == words;
  }

  lemma WordsJoined(c: char, w: string, rest: string, q: char -> bool)
    requires !q(c) && IsWord(w, q) && (rest != [] ==> q(rest[0]))
    ensures Words([c] + (w + rest), q) == Prepended(c, Words(w + rest, q), true)
  {
    assert [c] + (w + rest) == ([c] + w) + rest;
    WordsCons(w, rest, q);
    WordsCons([c] + w, rest, q);
    PrependedCons(c, w, Words(rest, q));
  }

  /** A text that starts with a letter is its first word and what follows. */
  lemma LeadingWord(x: string, q: char -> bool) returns (w: string, rest: string)
    requires x != [] && !q(x[0])
    ensures x == w + rest && IsWord(w, q) && (rest != [] ==> q(rest[0]))
  {
    var k := LeadingRun(x, q);
    w, rest := x[..k], x[k..];
    assert k != 0;
  }

  lemma WordsPrepend(c: char, x: string, q: char -> bool)
    requires !q(c)
    ensures Words([c] + x, q) == Prepended(c, Words(x, q), x != [] && !q(x[0]))
  {
    if x == [] || q(x[0]) {
      WordsCons([c], x, q);
    } else {
      var w, rest := LeadingWord(x, q);
      WordsJoined(c, w, rest, q);
    }
  }

  lemma SubRunsFirst(s: string, p: char -> bool)
    ensures SubRuns(s, p) == [] <==> s == []
    ensures s != [] ==> SubRuns(s, p)[0] == if p(s[0]) then ' ' else s[0]
  {
    if |s| > 1 && p(s[0]) && p(s[1]) {
      SubRunsFirst(s[1..], p);
    }
  }

  /** Turning p-runs into spaces makes p-characters separators. */
  lemma {:induction false} WordsOfSubRuns(s: string, p: char -> bool, q: char -> bool, pq: char -> bool)
    requires q(' ') && forall c :: pq(c) == (p(c) || q(c))
    ensures Words(SubRuns(s, p), q) == Words(s, pq)
    decreases |s|
  {
    if s != [] {
      WordsOfSubRuns(s[1..], p, q, pq);
      SubRunsFirst(s[1..], p);
      var rest := SubRuns(s[1..], p);
      if !p(s[0]) {
        assert SubRuns(s, p) == [s[0]] + rest;
        if q(s[0]) {
          assert ([s[0]] + rest)[1..] == rest;
        } else {
          WordsPrepend(s[0], rest, q);
          WordsPrepend(s[0], s[1..], pq);
          assert s == [s[0]] + s[1..];
        }
      } else if !(|s| > 1 && p(s[1])) {
        assert ([' '] + rest)[1..] == rest;
      }
    }
  }

  lemma {:induction false} RunDropLast(s: string, q: char -> bool)
    requires s != [] && q(s[|s| - 1])
    ensures LeadingRun(s[..|s| - 1], q) == LeadingRun(s, q)
  {
    if !q(s[0]) {
      assert s[1..][..|s| - 2] == s[..|s| - 1][1..];
      RunDropLast(s[1..], q);
    }
  }

  /** A trailing separator does not matter. */
  lemma {:induction false} WordsDropLast(s: string, q: char -> bool)
    requires s != [] && q(s[|s| - 1])
    ensures Words(s[..|s| - 1], q) == Words(s, q)
    decreases |s|
  {
    var t := s[..|s| - 1];
    if |s| > 1 {
      if q(s[0]) {
        WordsDropLast(s[1..], q);
        TakeOfDrop(s, 1);
      } else {
        var k := LeadingRun(s, q);
        WordsDropLast(s[k..], q);
        WordAndDropLast(s, k, q);
      }
    }
  }

  lemma WordAndDropLast(s: string, k: nat, q: char -> bool)
    requires |s| > 1 && q(s[|s| - 1]) && !q(s[0]) && k == LeadingRun(s, q)
    requires Words(s[k..][..|s[k..]| - 1], q) == Words(s[k..], q)
    ensures Words(s[..|s| - 1], q) == Words(s, q)
  {
    var t := s[..|s| - 1];
    RunDropLast(s, q);
    TakeOfDrop(s, k);
    WordsHead(s, k, q);
    WordsHead(t, k, q);
    assert t[..k] == s[..k];
  }

  lemma TakeOfDrop(s: string, k: nat)
    requires k < |s|
    ensures s[k..][..|s[k..]| - 1] == s[..|s| - 1][k..]
  {
  }

  /** Stripping white space does not matter when all of it separates. */
  lemma {:induction false} WordsOfStrip(s: string, q: char -> bool)
    requires forall c | c in s :: IsSpace(c) ==> q(c)
    ensures Words(Strip(s), q) == Words(s, q)
    decreases |s|
  {
    if s != [] {
      assert s[0] in s && s[|s| - 1] in s;
      if IsSpace(s[0]) {
        WordsOfStrip(s[1..], q);
      } else if IsSpace(s[|s| - 1]) {
        WordsOfStrip(s[..|s| - 1], q);
        WordsDropLast(s, q);
      }
    }
  }

  /** After the replacement a p-character can only be a space. */
  lemma {:induction false} SubRunsOnlyBlanks(s: string, p: char -> bool)
    ensures forall c | c in SubRuns(s, p) :: p(c) ==> c == ' '
  {
    if s != [] {
      SubRunsOnlyBlanks(s[1..], p);
    }
  }

  // ------------------------------------------------- what splitting into words is

  /** The words with a gap before, between and after them. */
  function Interleaved(gaps: seq<string>, words: seq<string>): string
    requires |gaps| == |words| + 1
  {
    if words == [] then gaps[0] else gaps[0] + words[0] + Interleaved(gaps[1..], words[1..])
  }

  /** Gaps of separators, none empty between two words, and words without any. */
  ghost predicate LaidOut(s: string, sep: char -> bool, words: seq<string>, gaps: seq<string>) {
    && |gaps| == |words| + 1
    && s == Interleaved(gaps, words)
    && (forall i | 0 <= i < |words| :: IsWord(words[i], sep))
    && (forall i | 0 <= i < |gaps| :: forall c | c in gaps[i] :: sep(c))
    && (forall i | 0 < i < |words| :: gaps[i] != "")
  }

  lemma {:induction false} WordsAfterGap(gap: string, s: string, sep: char -> bool)
    requires forall c | c in gap :: sep(c)
    ensures Words(gap + s, sep) == Words(s, sep)
  {
    if gap == [] {
      assert gap + s == s;
    } else {
      assert gap[0] in gap;
      WordsAfterGap(gap[1..], s, sep);
      assert (gap + s)[1..] == gap[1..] + s;
    }
  }

  lemma {:induction false} LaidOutWords(s: string, sep: char -> bool, words: seq<string>, gaps: seq<string>)
    requires LaidOut(s, sep, words, gaps)
    ensures Words(s, sep) == words
    decreases |words|
  {
    if words == [] {
      assert s == gaps[0] + [];
      WordsAfterGap(gaps[0], [], sep);
    } else {
      var rest := Interleaved(gaps[1..], words[1..]);
      LaidOutWords(rest, sep, words[1..], gaps[1..]);
      StartsWithGap(gaps[1..], words[1..], sep);
      assert s == gaps[0] + (words[0] + rest);
      WordsAfterGap(gaps[0], words[0] + rest, sep);
      WordsCons(words[0], rest, sep);
    }
  }

  lemma StartsWithGap(gaps: seq<string>, words: seq<string>, sep: char -> bool)
    requires |gaps| == |words| + 1 && (words == [] || gaps[0] != "") && forall c | c in gaps[0] :: sep(c)
    ensures Interleaved(gaps, words) != [] ==> sep(Interleaved(gaps, words)[0])
  {
    if gaps[0] != "" {
      assert gaps[0][0] in gaps[0];
    }
  }

  lemma {:induction false} WordsLaidOut(s: string, sep: char -> bool) returns (gaps: seq<string>)
    ensures LaidOut(s, sep, Words(s, sep), gaps)
    decreases |s|
  {
    if s == [] {
      gaps := [""];
    } else if sep(s[0]) {
      gaps := WordsLaidOut(s[1..], sep);
      GapGrows(s[0], s[1..], sep, Words(s[1..], sep), gaps);
      gaps := [[s[0]] + gaps[0]] + gaps[1..];
    } else {
      var k := LeadingRun(s, sep);
      gaps := WordsLaidOut(s[k..], sep);
      WordInFront(s[..k], s[k..], sep, Words(s[k..], sep), gaps);
      gaps := [""] + gaps;
      assert s == s[..k] + s[k..];
    }
  }

  lemma GapGrows(c: char, s: string, sep: char -> bool, words: seq<string>, gaps: seq<string>)
    requires sep(c) && LaidOut(s, sep, words, gaps)
    ensures LaidOut([c] + s, sep, words, [[c] + gaps[0]] + gaps[1..])
  {
    var more := [[c] + gaps[0]] + gaps[1..];
    assert more[1..] == gaps[1..];
    if words == [] {
      assert [c] + s == more[0];
    } else {
      assert [c] + s == more[0] + words[0] + Interleaved(gaps[1..], words[1..]);
    }
  }

  lemma WordInFront(w: string, s: string, sep: char -> bool, words: seq<string>, gaps: seq<string>)
    requires IsWord(w, sep) && (s != [] ==> sep(s[0])) && LaidOut(s, sep, words, gaps)
    ensures LaidOut(w + s, sep, [w] + words, [""] + gaps)
  {
    assert ([""] + gaps)[1..] == gaps && ([w] + words)[1..] == words;
    assert w + s == "" + w + s;
    if words != [] {
      assert words[0][0] in words[0];
      assert s[|gaps[0]|] == words[0][0];
    }
  }

  /** The words of a text are the one way to lay it out as words and gaps. */
  lemma WordsIff(s: string, sep: char -> bool, words: seq<string>)
    ensures Words(s, sep) == words <==> exists gaps :: LaidOut(s, sep, words, gaps)
  {
    var gaps := WordsLaidOut(s, sep);
    if other :| LaidOut(s, sep, words, other) {
      LaidOutWords(s, sep, words, other);
    }
  }

  /** What is left when the white space around it is cut off. */
  lemma {:induction false} StripIff(s: string, t: string)
    ensures Strip(s) == t <==> exists before, after :: Surrounds(s, before, t, after)
    decreases |s|
  {
    var before, after := StripCuts(s);
    if x, y :| Surrounds(s, x, t, y) {
      CutIsStrip(x, t, y);
    }
  }

  predicate Surrounds(s: string, before: string, t: string, after: string) {
    && s == before + t + after
    && (forall c | c in before + after :: IsSpace(c))
    && (t != "" ==> !IsSpace(t[0]) && !IsSpace(t[|t| - 1]))
  }

  lemma {:induction false} StripCuts(s: string) returns (before: string, after: string)
    ensures Surrounds(s, before, Strip(s), after)
    decreases |s|
  {
    if s == [] {
      before, after := [], [];
    } else if IsSpace(s[0]) {
      before, after := StripCuts(s[1..]);
      assert s == [s[0]] + before + Strip(s) + after;
      before := [s[0]] + before;
    } else if IsSpace(s[|s| - 1]) {
      before, after := StripCuts(s[..|s| - 1]);
      assert s == before + Strip(s) + (after + [s[|s| - 1]]);
      after := after + [s[|s| - 1]];
    } else {
      before, after := [], [];
      assert s == [] + s + [];
    }
  }

  lemma {:induction false} CutIsStrip(before: string, t: string, after: string)
    requires Surrounds(before + t + after, before, t, after)
    ensures Strip(before + t + after) == t
    decreases |before|, |after|
  {
    var s := before + t + after;
    if before != [] {
      assert before[0] in before + after;
      assert s[1..] == before[1..] + t + after;
      CutIsStrip(before[1..], t, after);
    } else if t == [] {
      AllSpaceStrips(s);
    } else if after != [] {
      assert after[|after| - 1] in before + after;
      assert s[..|s| - 1] == before + t + after[..|after| - 1];
      CutIsStrip(before, t, after[..|after| - 1]);
    } else {
      assert s == t;
    }
  }

  lemma {:induction false} AllSpaceStrips(s: string)
    requires forall c | c in s :: IsSpace(c)
    ensures Strip(s) == []
  {
    if s != [] {
      assert s[0] in s;
      AllSpaceStrips(s[1..]);
    }
  }
}
