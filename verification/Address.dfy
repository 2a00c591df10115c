/** Address normalisation (app/core/address.py): the comparison key and its tokens. */
module Address {
  import opened Text
  import opened Tokens

  const NOISE_TOKENS: set<string> :=
    {"no", "no.", "off", "beside", "behind", "opposite", "near", "by", "after", "before", "close to"}

  const ABBREVIATIONS: map<string, string> := map[
    "rd" := "road", "ave" := "avenue", "av" := "avenue", "cl" := "close", "st" := "street",
    "str" := "street", "cres" := "crescent", "blvd" := "boulevard", "hwy" := "highway",
    "expwy" := "expressway", "jcn" := "junction", "jct" := "junction", "est" := "estate",
    "ph" := "phase", "apt" := "apartment", "bstp" := "bus stop"]

  /** What is dropped and what is expanded. */
  datatype Vocabulary = Vocabulary(noise: set<string>, abbreviations: map<string, string>)

  const LAGOS := Vocabulary(NOISE_TOKENS, ABBREVIATIONS)

  /** `[.,;:/\\]`. */
  function IsPunct(c: char): bool {
    c == '.' || c == ',' || c == ';' || c == ':' || c == '/' || c == '\\'
  }

  /** What separates tokens: punctuation or white space. */
  function IsBreak(c: char): bool {
    IsPunct(c) || IsSpace(c)
  }

  function Expand(tok: string, v: Vocabulary): string {
    if tok in v.abbreviations then v.abbreviations[tok] else tok
  }

  /** The loop's effect on the tokens: drop the empty and the noisy, expand the rest. */
  function Keep(parts: seq<string>, v: Vocabulary): seq<string> {
    if parts == [] then []
    else if parts[0] == [] || parts[0] in v.noise then Keep(parts[1..], v)
    else [Expand(parts[0], v)] + Keep(parts[1..], v)
  }

  /** The text after lower-casing, punctuation and space collapsing. */
  function Cleaned(raw: string): string {
    Strip(SubRuns(SubRuns(Strip(Lower(raw)), IsPunct), IsSpace))
  }

  function NormaliseWith(raw: string, v: Vocabulary): string {
    if raw == [] then []
    else Strip(SubRuns(Join(Keep(Split(Cleaned(raw), IsBlank), v)), IsSpace))
  }

  function NormaliseSpec(raw: string): string {
    NormaliseWith(raw, LAGOS)
  }

  method Normalise(raw: string) returns (key: string)
    ensures key == NormaliseSpec(raw)
  {
    key := NormaliseLoop(raw, LAGOS);
  }

  method NormaliseLoop(raw: string, v: Vocabulary) returns (key: string)
    ensures key == NormaliseWith(raw, v)
  {
    if raw == [] {
      return [];
    }
    var text := Strip(Lower(raw));
    text := SubRuns(text, IsPunct);
    text := Strip(SubRuns(text, IsSpace));
    var tokens := Split(text, IsBlank);
    var out: seq<string> := [];
    for i := 0 to |tokens|
      invariant out + Keep(tokens[i..], v) == Keep(tokens, v)
    {
      var tok := tokens[i];
      assert tokens[i..][1..] == tokens[i + 1..];
      if tok != [] && tok !in v.noise {
        ghost var rest := Keep(tokens[i + 1..], v);
        assert out + ([Expand(tok, v)] + rest) == (out + [Expand(tok, v)]) + rest;
        out := out + [if tok in v.abbreviations then v.abbreviations[tok] else tok];
      }
    }
    assert out + [] == out;
    key := Strip(SubRuns(Join(out), IsSpace));
  }

  // ---------------------------------------------------- the key as its tokens

  /** A lower-case word without punctuation or white space. */
  predicate Clean(w: string) {
    w != [] && forall c | c in w :: !IsBreak(c) && LowerChar(c) == c
  }

  /** The expansions are clean words that are neither noise nor abbreviations themselves. */
  predicate Settled(v: Vocabulary) {
    forall k | k in v.abbreviations ::
      && v.abbreviations[k] == Join(Words(v.abbreviations[k], IsBlank))
      && Words(v.abbreviations[k], IsBlank) != []
      && forall w | w in Words(v.abbreviations[k], IsBlank) :: Final(w, v)
  }

  predicate Final(w: string, v: Vocabulary) {
    Clean(w) && w !in v.noise && w !in v.abbreviations
  }

  /** The tokens kept from a list of words, one entry per final word. */
  function Canonical(words: seq<string>, v: Vocabulary): seq<string> {
    if words == [] then []
    else
      var rest := Canonical(words[1..], v);
      if words[0] in v.noise then rest
      else if words[0] in v.abbreviations then Words(v.abbreviations[words[0]], IsBlank) + rest
      else [words[0]] + rest
  }

  lemma {:induction false} CanonicalIsFinal(words: seq<string>, v: Vocabulary)
    requires Settled(v) && forall w | w in words :: Clean(w)
    ensures forall w | w in Canonical(words, v) :: Final(w, v)
  {
    if words != [] {
      CanonicalIsFinal(words[1..], v);
      assert words[0] in words;
    }
  }

  lemma {:induction false} CanonicalOfFinal(words: seq<string>, v: Vocabulary)
    requires forall w | w in words :: Final(w, v)
    ensures Canonical(words, v) == words
  {
    if words != [] {
      assert words[0] in words;
      CanonicalOfFinal(words[1..], v);
    }
  }

  /** Joining the expanded tokens or their words is the same. */
  lemma {:induction false} JoinOfKept(words: seq<string>, v: Vocabulary)
    requires Settled(v) && forall w | w in words :: w != []
    ensures var kept, final := Keep(words, v), Canonical(words, v);
            Join(kept) == Join(final) && (kept == [] <==> final == [])
  {
    if words != [] {
      assert words[0] in words;
      forall w | w in words[1..] ensures w != [] { assert w in words; }
      JoinOfKept(words[1..], v);
      var kept, final := Keep(words[1..], v), Canonical(words[1..], v);
      if words[0] !in v.noise {
        JoinCons(Expand(words[0], v), kept);
        if words[0] in v.abbreviations {
          JoinAppend(Words(v.abbreviations[words[0]], IsBlank), final);
        } else {
          JoinCons(words[0], final);
        }
      }
    }
  }

  lemma {:induction false} KeepSkipsEmpty(parts: seq<string>, v: Vocabulary)
    ensures Keep(parts, v) == Keep(NonEmpty(parts), v)
  {
    if parts != [] {
      KeepSkipsEmpty(parts[1..], v);
      if parts[0] != [] {
        assert NonEmpty(parts)[1..] == NonEmpty(parts[1..]);
      }
    }
  }

  /** Cleaning turns every break into a blank: the words are those of the lower-cased input. */
  lemma CleanedWords(raw: string)
    ensures NonEmpty(Split(Cleaned(raw), IsBlank)) == Words(Lower(raw), IsBreak)
  {
    var stripped := Strip(Lower(raw));
    var text := SubRuns(stripped, IsPunct);
    SplitWords(Cleaned(raw), IsBlank);
    SubRunsOnlyBlanks(text, IsSpace);
    WordsOfStrip(SubRuns(text, IsSpace), IsBlank);
    WordsOfSubRuns(text, IsSpace, IsBlank, IsSpace);
    WordsOfSubRuns(stripped, IsPunct, IsSpace, IsBreak);
    WordsOfStrip(Lower(raw), IsBreak);
  }

  lemma LowerIdempotent(s: string)
    ensures forall c | c in Lower(s) :: LowerChar(c) == c
  {
    forall i | 0 <= i < |s| ensures LowerChar(Lower(s)[i]) == Lower(s)[i] {
    }
  }

  lemma {:induction false} WordsFromText(s: string, sep: char -> bool, c: char)
    requires exists w :: w in Words(s, sep) && c in w
    ensures c in s
    decreases |s|
  {
    var w :| w in Words(s, sep) && c in w;
    if sep(s[0]) {
      WordsFromText(s[1..], sep, c);
    } else {
      var k := LeadingRun(s, sep);
      if w != s[..k] {
        assert w in Words(s[k..], sep);
        WordsFromText(s[k..], sep, c);
      }
    }
  }

  lemma LoweredWordsAreClean(raw: string)
    ensures forall w | w in Words(Lower(raw), IsBreak) :: Clean(w)
  {
    WordsAreWords(Lower(raw), IsBreak);
    LowerIdempotent(raw);
    forall w, c | w in Words(Lower(raw), IsBreak) && c in w
      ensures LowerChar(c) == c
    {
      WordsFromText(Lower(raw), IsBreak, c);
    }
  }

  lemma SpacedEnds(w: string, rest: string)
    requires w != [] && rest != []
    ensures var s := w + " " + rest; s[0] == w[0] && s[|s| - 1] == rest[|rest| - 1]
  {
  }

  lemma {:induction false} JoinEnds(ws: seq<string>)
    requires ws != [] && forall i | 0 <= i < |ws| :: ws[i] != []
    ensures Join(ws) != [] && Join(ws)[0] == ws[0][0]
    ensures var last := ws[|ws| - 1]; Join(ws)[|Join(ws)| - 1] == last[|last| - 1]
  {
    if |ws| > 1 {
      JoinEnds(ws[1..]);
      SpacedEnds(ws[0], Join(ws[1..]));
    }
  }

  lemma SubRunsOfBlank(rest: string)
    requires rest != [] && !IsSpace(rest[0])
    ensures SubRuns([' '] + rest, IsSpace) == [' '] + SubRuns(rest, IsSpace)
  {
    assert ([' '] + rest)[1..] == rest;
  }

  lemma CleanEnds(w: string)
    requires Clean(w)
    ensures !IsSpace(w[0]) && !IsSpace(w[|w| - 1])
  {
    assert w[0] in w && w[|w| - 1] in w;
  }

  lemma {:induction false} SubRunsOfJoin(ws: seq<string>)
    requires forall i | 0 <= i < |ws| :: Clean(ws[i])
    ensures SubRuns(Join(ws), IsSpace) == Join(ws)
  {
    if |ws| == 1 {
      SubRunsOfWord(ws[0], []);
      assert ws[0] + [] == ws[0];
    } else if |ws| > 1 {
      var rest := Join(ws[1..]);
      SubRunsOfJoin(ws[1..]);
      JoinEnds(ws[1..]);
      CleanEnds(ws[1]);
      SubRunsOfBlank(rest);
      SubRunsOfWord(ws[0], [' '] + rest);
      assert Join(ws) == ws[0] + ([' '] + rest);
    }
  }

  lemma {:induction false} JoinIsLower(ws: seq<string>)
    requires forall w | w in ws :: Clean(w)
    ensures forall c | c in Join(ws) :: LowerChar(c) == c
  {
    if ws != [] {
      assert Clean(ws[0]);
      JoinIsLower(ws[1..]);
      assert LowerChar(' ') == ' ';
      JoinCons(ws[0], ws[1..]);
      assert ws == [ws[0]] + ws[1..];
    }
  }

  /** Joined clean words need no further collapsing or stripping, and are lower-case. */
  lemma JoinedIsTidy(ws: seq<string>)
    requires forall w | w in ws :: Clean(w)
    ensures SubRuns(Join(ws), IsSpace) == Join(ws) && Strip(Join(ws)) == Join(ws)
    ensures forall c | c in Join(ws) :: LowerChar(c) == c
  {
    SubRunsOfJoin(ws);
    JoinIsLower(ws);
    if ws != [] {
      JoinEnds(ws);
      CleanEnds(ws[0]);
      CleanEnds(ws[|ws| - 1]);
    }
  }

  lemma {:induction false} SubRunsOfWord(w: string, rest: string)
    requires forall c | c in w :: !IsSpace(c)
    ensures SubRuns(w + rest, IsSpace) == w + SubRuns(rest, IsSpace)
  {
    if w == [] {
      assert w + rest == rest;
    } else {
      assert w[0] in w;
      assert (w + rest)[1..] == w[1..] + rest;
      SubRunsOfWord(w[1..], rest);
    }
  }

  /** The final tokens of an address. */
  function TokensWith(raw: string, v: Vocabulary): seq<string> {
    Canonical(Words(Lower(raw), IsBreak), v)
  }

  /** The comparison key is its final tokens, one space apart. */
  lemma KeyIsJoinedTokens(raw: string, v: Vocabulary)
    requires Settled(v)
    ensures NormaliseWith(raw, v) == Join(TokensWith(raw, v))
    ensures forall w | w in TokensWith(raw, v) :: Final(w, v)
  {
    var words := Words(Lower(raw), IsBreak);
    LoweredWordsAreClean(raw);
    CanonicalIsFinal(words, v);
    if raw != [] {
      CleanedWords(raw);
      KeepSkipsEmpty(Split(Cleaned(raw), IsBlank), v);
      JoinOfKept(words, v);
      JoinedIsTidy(Canonical(words, v));
    }
  }

  /** Normalising final tokens gives them back. */
  lemma TokensOfKey(ts: seq<string>, v: Vocabulary)
    requires forall w | w in ts :: Final(w, v)
    ensures TokensWith(Join(ts), v) == ts
  {
    JoinedIsTidy(ts);
    var key := Join(ts);
    forall i | 0 <= i < |key| ensures LowerChar(key[i]) == key[i] { assert key[i] in key; }
    assert Lower(key) == key;
    assert forall w | w in ts :: IsWord(w, IsBreak);
    WordsOfJoin(ts, IsBreak);
    CanonicalOfFinal(ts, v);
  }

  lemma NormaliseWithIdempotent(raw: string, v: Vocabulary)
    requires Settled(v)
    ensures NormaliseWith(NormaliseWith(raw, v), v)
            == NormaliseWith(raw, v)
  {
    KeyIsJoinedTokens(raw, v);
    var ts := TokensWith(raw, v);
    TokensOfKey(ts, v);
    KeyIsJoinedTokens(Join(ts), v);
  }

  // ----------------------------------------------------- the published tables

  /** The words the expansions are made of. */
  const EXPANSION_WORDS: set<string> :=
    {"road", "avenue", "close", "street", "crescent", "boulevard", "highway", "expressway",
     "junction", "estate", "phase", "apartment", "bus", "stop"}

  lemma ExpansionsAreNotNoise(w: string)
    requires w in EXPANSION_WORDS
    ensures w !in NOISE_TOKENS
  {
  }

  lemma ExpansionsAreNotAbbreviations(w: string)
    requires w in EXPANSION_WORDS
    ensures w !in ABBREVIATIONS
  {
  }

  predicate AllLetters(w: string) {
    w != [] && forall i | 0 <= i < |w| :: 'a' <= w[i] <= 'z'
  }

  lemma LettersAreClean(w: string)
    requires AllLetters(w)
    ensures Clean(w)
  {
  }

  lemma ExpansionsAreLetters(w: string)
    requires w in EXPANSION_WORDS
    ensures AllLetters(w)
  {
  }

  lemma ExpansionIsFinal(w: string)
    requires w in EXPANSION_WORDS
    ensures Final(w, LAGOS)
    ensures Words(w, IsBlank) == [w] && Join([w]) == w
  {
    ExpansionsAreNotNoise(w);
    ExpansionsAreNotAbbreviations(w);
    ExpansionsAreLetters(w);
    LettersAreClean(w);
    CleanIsOneWord(w);
  }

  lemma CleanIsOneWord(w: string)
    requires Clean(w)
    ensures Words(w, IsBlank) == [w] && Join([w]) == w
  {
    WordsCons(w, [], IsBlank);
    assert w + [] == w;
  }

  lemma ExpansionWords(k: string)
    requires k in ABBREVIATIONS
    ensures ABBREVIATIONS[k] in EXPANSION_WORDS || ABBREVIATIONS[k] == Join(["bus", "stop"])
  {
    assert Join(["bus", "stop"]) == "bus stop" by {
      assert ["bus", "stop"][1..] == ["stop"];
    }
  }

  /** No expansion is itself dropped or expanded. */
  lemma TablesAreSettled()
    ensures Settled(LAGOS)
  {
    forall k | k in ABBREVIATIONS
      ensures var v := ABBREVIATIONS[k];
              && v == Join(Words(v, IsBlank)) && Words(v, IsBlank) != []
              && forall w | w in Words(v, IsBlank) :: Final(w, LAGOS)
    {
      ExpansionWords(k);
      if ABBREVIATIONS[k] in EXPANSION_WORDS {
        ExpansionIsFinal(ABBREVIATIONS[k]);
      } else {
        BusStopSplits();
      }
    }
  }

  lemma BusStopSplits()
    ensures Words(Join(["bus", "stop"]), IsBlank) == ["bus", "stop"]
    ensures forall w | w in ["bus", "stop"] :: Final(w, LAGOS)
  {
    ExpansionIsFinal("bus");
    ExpansionIsFinal("stop");
    WordsOfJoin(["bus", "stop"], IsBlank);
  }

  /** The normalised tokens of an address. */
  function TokensOf(raw: string): seq<string> {
    TokensWith(raw, LAGOS)
  }

  /** Normalising twice is normalising once. */
  lemma NormaliseIdempotent(raw: string)
    ensures NormaliseSpec(NormaliseSpec(raw)) == NormaliseSpec(raw)
  {
    TablesAreSettled();
    NormaliseWithIdempotent(raw, LAGOS);
  }

  /** The key is its tokens one space apart; none is noise, an abbreviation, or holds a break. */
  lemma NormaliseCharacterised(raw: string)
    ensures NormaliseSpec(raw) == Join(TokensOf(raw))
    ensures forall w | w in TokensOf(raw) :: Final(w, LAGOS)
    ensures TokensOf(NormaliseSpec(raw)) == TokensOf(raw)
  {
    TablesAreSettled();
    KeyIsJoinedTokens(raw, LAGOS);
    TokensOfKey(TokensOf(raw), LAGOS);
  }

  // --------------------------------------------------- the key, part by part

  lemma WordsOfParts(a: string, c: char, b: string, sep: char -> bool)
    requires sep(c)
    ensures Words(a + [c] + b, sep) == Words(a, sep) + Words(b, sep)
  {
    SplitConcat(a, c, b, sep);
    SplitWords(a + [c] + b, sep);
    SplitWords(a, sep);
    SplitWords(b, sep);
    NonEmptyAppend(Split(a, sep), Split(b, sep));
  }

  lemma {:induction false} CanonicalAppend(a: seq<string>, b: seq<string>, v: Vocabulary)
    ensures Canonical(a + b, v) == Canonical(a, v) + Canonical(b, v)
  {
    if a == [] {
      assert a + b == b;
    } else {
      assert (a + b)[1..] == a[1..] + b;
      CanonicalAppend(a[1..], b, v);
    }
  }

  lemma LowerOfParts(a: string, c: char, b: string)
    requires LowerChar(c) == c
    ensures Lower(a + [c] + b) == Lower(a) + [c] + Lower(b)
  {
  }

  lemma KeyOfPartsWith(a: string, c: char, b: string, v: Vocabulary)
    requires Settled(v) && IsBreak(c) && LowerChar(c) == c
    ensures var x, y := NormaliseWith(a, v), NormaliseWith(b, v);
            NormaliseWith(a + [c] + b, v) == if x == "" then y else if y == "" then x else x + " " + y
  {
    KeyIsJoinedTokens(a, v);
    KeyIsJoinedTokens(b, v);
    KeyIsJoinedTokens(a + [c] + b, v);
    LowerOfParts(a, c, b);
    WordsOfParts(Lower(a), c, Lower(b), IsBreak);
    CanonicalAppend(Words(Lower(a), IsBreak), Words(Lower(b), IsBreak), v);
    JoinOfFinal(TokensWith(a, v), TokensWith(b, v));
  }

  /** At white space or one of `.,;:/\` an address falls into parts whose keys are put side by side. */
  lemma KeyOfParts(a: string, c: char, b: string)
    requires c in ".,;:/\\" || IsSpace(c)
    ensures var x, y := NormaliseSpec(a), NormaliseSpec(b);
            NormaliseSpec(a + [c] + b) == if x == "" then y else if y == "" then x else x + " " + y
  {
    TablesAreSettled();
    KeyOfPartsWith(a, c, b, LAGOS);
  }

  lemma JoinOfFinal(a: seq<string>, b: seq<string>)
    requires forall w | w in a + b :: w != ""
    ensures Join(a + b) == if Join(a) == "" then Join(b) else if Join(b) == "" then Join(a) else Join(a) + " " + Join(b)
  {
    if a == [] {
      assert a + b == b;
    } else {
      assert a[0] in a + b;
      JoinAppend(a, b);
      assert b != [] ==> b[0] in a + b;
    }
  }

  lemma WordIsOne(w: string)
    requires w != "" && forall c | c in w :: !IsBreak(c)
    ensures Words(Lower(w), IsBreak) == [Lower(w)]
  {
    var low := Lower(w);
    forall c | c in low ensures !IsBreak(c) {
      var i :| 0 <= i < |low| && low[i] == c;
      assert w[i] in w;
    }
    WordsCons(low, [], IsBreak);
    assert low + [] == low;
  }

  lemma KeyOfOne(w: string, v: Vocabulary)
    requires Settled(v) && w != "" && forall c | c in w :: !IsBreak(c)
    ensures NormaliseWith(w, v)
            == if Lower(w) in v.noise then ""
               else if Lower(w) in v.abbreviations then v.abbreviations[Lower(w)] else Lower(w)
  {
    KeyIsJoinedTokens(w, v);
    WordIsOne(w);
    CanonicalOfOne(Lower(w), v);
  }

  /** A word between breaks: nothing if it is noise, else what it stands for, in lower case. */
  lemma KeyOfWord(w: string)
    requires w != "" && forall c | c in w :: c !in ".,;:/\\" && !IsSpace(c)
    ensures NormaliseSpec(w)
            == if Lower(w) in NOISE_TOKENS then ""
               else if Lower(w) in ABBREVIATIONS then ABBREVIATIONS[Lower(w)] else Lower(w)
  {
    TablesAreSettled();
    KeyOfOne(w, LAGOS);
  }

  lemma CanonicalOfOne(w: string, v: Vocabulary)
    requires Settled(v)
    ensures Join(Canonical([w], v))
            == if w in v.noise then "" else if w in v.abbreviations then v.abbreviations[w] else w
  {
    assert Canonical([w][1..], v) == [];
    if w in v.abbreviations {
      assert Words(v.abbreviations[w], IsBlank) + [] == Words(v.abbreviations[w], IsBlank);
    }
  }
}
