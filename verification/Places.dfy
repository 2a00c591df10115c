/** Recognising a known area in an address query (app/api/v1/places.py). */
module Places {
  import opened Wrappers
  import opened Tokens
  import opened Address

  datatype Area = Area(name: string, lat: real, lng: real)

  /** Python's `needle in haystack`. */
  predicate InText(needle: string, haystack: string) {
    needle <= haystack || (haystack != [] && InText(needle, haystack[1..]))
  }

  function Padded(s: string): string {
    " " + s + " "
  }

  /** The test made on each area. */
  predicate RecognisedIn(name: string, haystack: string, v: Vocabulary) {
    |NormaliseWith(name, v)| >= 3 && InText(Padded(NormaliseWith(name, v)), haystack)
  }

  predicate Recognised(name: string, q: string, v: Vocabulary) {
    RecognisedIn(name, Padded(NormaliseWith(q, v)), v)
  }

  ghost predicate BlockAt(a: seq<string>, q: seq<string>, i: nat) {
    i + |a| <= |q| && q[i..i + |a|] == a
  }

  /** The tokens of a stand together, in order, somewhere in those of q. */
  ghost predicate Block(a: seq<string>, q: seq<string>) {
    exists i: nat :: BlockAt(a, q, i)
  }

  /** Normalised length of a recognised area, 0 for the others. */
  function RankIn(area: Area, haystack: string, v: Vocabulary): nat {
    if RecognisedIn(area.name, haystack, v) then |NormaliseWith(area.name, v)| else 0
  }

  function Ranks(areas: seq<Area>, q: string, v: Vocabulary): (r: seq<nat>)
    ensures |r| == |areas|
  {
    seq(|areas|, i requires 0 <= i < |areas| => RankIn(areas[i], Padded(NormaliseWith(q, v)), v))
  }

  /** Rank k is positive, none exceeds it, and it is the first of its value. */
  ghost predicate FirstGreatest(ranks: seq<nat>, k: nat) {
    && k < |ranks| && ranks[k] > 0
    && forall i | 0 <= i < |ranks| :: ranks[i] <= ranks[k] && (i < k ==> ranks[i] < ranks[k])
  }

  /** The best of the first i ranks: the first greatest one, or none when all are zero. */
  ghost predicate BestSoFar(ranks: seq<nat>, i: nat, best: Option<nat>)
    requires i <= |ranks|
  {
    match best
    case None => forall j | 0 <= j < i :: ranks[j] == 0
    case Some(k) => FirstGreatest(ranks[..i], k)
  }

  /** Does rank i beat the best one before it? */
  predicate Beats(ranks: seq<nat>, i: nat, best: Option<nat>)
    requires i < |ranks|
  {
    ranks[i] > 0 && (best.Some? && best.value < |ranks| ==> ranks[i] > ranks[best.value])
  }

  lemma BestNext(ranks: seq<nat>, i: nat, best: Option<nat>)
    requires i < |ranks| && BestSoFar(ranks, i, best)
    ensures BestSoFar(ranks, i + 1, if Beats(ranks, i, best) then Some(i) else best)
  {
    assert ranks[..i + 1] == ranks[..i] + [ranks[i]];
  }

  lemma BestOfAll(ranks: seq<nat>, best: Option<nat>)
    requires BestSoFar(ranks, |ranks|, best)
    ensures best.Some? ==> FirstGreatest(ranks, best.value)
  {
    assert ranks[..|ranks|] == ranks;
  }

  method LocalArea(q: string, areas: seq<Area>, v: Vocabulary) returns (best: Option<Area>)
    ensures best.None? ==> forall i | 0 <= i < |areas| :: Ranks(areas, q, v)[i] == 0
    ensures best.Some? ==> exists k: nat :: FirstGreatest(Ranks(areas, q, v), k) && areas[k] == best.value
  {
    var haystack := NormaliseLoop(q, v);
    haystack := " " + haystack + " ";
    ghost var at;
    best, at := LongestArea(haystack, areas, Ranks(areas, q, v), area => RankIn(area, haystack, v), v);
    BestOfAll(Ranks(areas, q, v), at);
  }

  /** The loop over the areas. */
  method LongestArea(haystack: string, areas: seq<Area>, ghost ranks: seq<nat>, ghost rank: Area -> nat, v: Vocabulary)
    returns (best: Option<Area>, ghost at: Option<nat>)
    requires forall area {:trigger RankIn(area, haystack, v)} :: rank(area) == RankIn(area, haystack, v)
    requires |ranks| == |areas| && forall i | 0 <= i < |areas| :: ranks[i] == rank(areas[i])
    ensures BestSoFar(ranks, |areas|, at)
    ensures best == if at.Some? && at.value < |areas| then Some(areas[at.value]) else None
  {
    best, at := None, None;
    for i := 0 to |areas|
      invariant BestSoFar(ranks, i, at)
      invariant best.Some? == at.Some? && (at.Some? ==> at.value < i && areas[at.value] == best.value)
    {
      BestNext(ranks, i, at);
      var longer := Longer(areas[i], haystack, best, rank, v);
      if longer {
        best, at := Some(areas[i]), Some(i);
      }
    }
  }

  /** Is this area recognised, with a name longer than that of the best one so far? */
  method Longer(area: Area, haystack: string, best: Option<Area>, ghost rank: Area -> nat, v: Vocabulary)
    returns (longer: bool)
    requires forall a {:trigger RankIn(a, haystack, v)} :: rank(a) == RankIn(a, haystack, v)
    requires best.Some? ==> rank(best.value) > 0
    ensures longer == (rank(area) > if best.Some? then rank(best.value) else 0)
  {
    var name := NormaliseLoop(area.name, v);
    assert rank(area) == RankIn(area, haystack, v);
    if |name| < 3 || !InText(" " + name + " ", haystack) {
      return false;
    }
    if best.Some? {
      var bestName := NormaliseLoop(best.value.name, v);
      assert rank(best.value) == RankIn(best.value, haystack, v);
      return |name| > |bestName|;
    }
    return true;
  }

  // -------------------------------------------- padded text and token blocks

  /** Every token followed by a blank. */
  function Flat(ts: seq<string>): string {
    if ts == [] then [] else ts[0] + [' '] + Flat(ts[1..])
  }

  lemma {:induction false} JoinFlat(ts: seq<string>)
    requires ts != []
    ensures Join(ts) + [' '] == Flat(ts)
  {
    if |ts| == 1 {
      assert Flat(ts[1..]) == [];
    } else {
      JoinFlat(ts[1..]);
      assert Join(ts) + [' '] == ts[0] + [' '] + (Join(ts[1..]) + [' ']);
    }
  }

  lemma {:induction false} FlatAppend(a: seq<string>, b: seq<string>)
    ensures Flat(a + b) == Flat(a) + Flat(b)
  {
    if a == [] {
      assert a + b == b;
    } else {
      FlatAppend(a[1..], b);
      assert (a + b)[1..] == a[1..] + b;
    }
  }

  lemma {:induction false} InTextAt(needle: string, haystack: string, k: nat)
    requires k <= |haystack| && needle <= haystack[k..]
    ensures InText(needle, haystack)
  {
    if k != 0 {
      assert haystack[1..][k - 1..] == haystack[k..];
      InTextAt(needle, haystack[1..], k - 1);
    } else {
      assert haystack[0..] == haystack;
    }
  }

  lemma {:induction false} InTextWhere(needle: string, haystack: string) returns (k: nat)
    requires InText(needle, haystack)
    ensures k <= |haystack| && needle <= haystack[k..]
  {
    if needle <= haystack {
      k := 0;
      assert haystack[0..] == haystack;
    } else {
      var j := InTextWhere(needle, haystack[1..]);
      k := j + 1;
      assert haystack[1..][j..] == haystack[k..];
    }
  }

  predicate AllWords(ts: seq<string>) {
    forall i | 0 <= i < |ts| :: IsWord(ts[i], IsBlank)
  }

  /** A blank in the padded tokens opens the padded tail of the tokens. */
  lemma {:induction false} BlankIsBoundary(ts: seq<string>, k: nat) returns (i: nat)
    requires AllWords(ts)
    requires k <= |Flat(ts)| && ([' '] + Flat(ts))[k] == ' '
    ensures i <= |ts| && ([' '] + Flat(ts))[k..] == [' '] + Flat(ts[i..])
  {
    var text := [' '] + Flat(ts);
    if k == 0 {
      i := 0;
      assert ts[0..] == ts;
    } else {
      var w, rest := ts[0], [' '] + Flat(ts[1..]);
      assert text == [' '] + w + rest;
      assert k > |w| by {
        if k <= |w| {
          NoBlankAt(w, k - 1);
        }
      }
      var m := k - 1 - |w|;
      assert text[k..] == rest[m..];
      var j := BlankIsBoundary(ts[1..], m);
      i := j + 1;
      assert ts[1..][j..] == ts[i..];
    }
  }

  lemma FirstWordAgrees(a: string, b: string, x: string, y: string)
    requires IsWord(a, IsBlank) && IsWord(b, IsBlank)
    requires a + [' '] + x <= b + [' '] + y
    ensures a == b && x <= y
  {
    var s, t := a + [' '] + x, b + [' '] + y;
    assert s[|a|] == ' ' && t[|b|] == ' ' && t[|a|] == s[|a|];
    assert |b| < |s| ==> s[|b|] == t[|b|];
    if |a| < |b| {
      NoBlankAt(b, |a|);
    } else if |b| < |a| {
      NoBlankAt(a, |b|);
    }
    assert forall i | 0 <= i < |a| :: a[i] == s[i] && b[i] == t[i];
    assert s[|a| + 1..] == x && t[|a| + 1..] == y;
  }

  lemma NoBlankAt(w: string, i: nat)
    requires IsWord(w, IsBlank) && i < |w|
    ensures w[i] != ' '
  {
    assert w[i] in w;
  }

  lemma {:induction false} FlatPrefix(a: seq<string>, q: seq<string>)
    requires AllWords(a) && AllWords(q) && Flat(a) <= Flat(q)
    ensures a <= q
  {
    if a != [] {
      FirstWordAgrees(a[0], q[0], Flat(a[1..]), Flat(q[1..]));
      FlatPrefix(a[1..], q[1..]);
      assert a == [a[0]] + a[1..] && q == [q[0]] + q[1..];
    }
  }

  /** Padded tokens occur in padded tokens exactly as a block of tokens. */
  lemma PaddedIffBlock(a: seq<string>, q: seq<string>)
    requires AllWords(a) && AllWords(q) && a != []
    ensures InText([' '] + Flat(a), [' '] + Flat(q)) <==> Block(a, q)
  {
    if InText([' '] + Flat(a), [' '] + Flat(q)) {
      PaddedGivesBlock(a, q);
    }
    if Block(a, q) {
      BlockGivesPadded(a, q);
    }
  }

  lemma PaddedGivesBlock(a: seq<string>, q: seq<string>)
    requires AllWords(a) && AllWords(q) && a != []
    requires InText([' '] + Flat(a), [' '] + Flat(q))
    ensures Block(a, q)
  {
    var needle, text := [' '] + Flat(a), [' '] + Flat(q);
    var k := InTextWhere(needle, text);
    assert text[k] == text[k..][0] == needle[0] == ' ';
    var i := BlankIsBoundary(q, k);
    assert ([' '] + Flat(a))[1..] == Flat(a) && ([' '] + Flat(q[i..]))[1..] == Flat(q[i..]);
    FlatPrefix(a, q[i..]);
    assert BlockAt(a, q, i);
  }

  lemma BlockGivesPadded(a: seq<string>, q: seq<string>)
    requires Block(a, q)
    ensures InText([' '] + Flat(a), [' '] + Flat(q))
  {
    var i: nat :| BlockAt(a, q, i);
    var left, right := q[..i], q[i + |a|..];
    assert q == left + (a + right);
    FlatAppend(left, a + right);
    FlatAppend(a, right);
    EndsInBlank(left);
    PaddedInside(Flat(left), Flat(a), Flat(right));
  }

  lemma PaddedInside(x: string, a: string, y: string)
    requires ([' '] + x)[|x|] == ' '
    ensures InText([' '] + a, [' '] + (x + (a + y)))
  {
    var text := [' '] + (x + (a + y));
    assert text[|x|] == ([' '] + x)[|x|];
    assert text[|x|..] == [' '] + a + y;
    InTextAt([' '] + a, text, |x|);
  }

  lemma {:induction false} EndsInBlank(ts: seq<string>)
    ensures ([' '] + Flat(ts))[|Flat(ts)|] == ' '
  {
    if ts != [] {
      EndsInBlank(ts[1..]);
      assert [' '] + Flat(ts) == [' '] + ts[0] + ([' '] + Flat(ts[1..]));
    }
  }

  /** An area is recognised exactly when its tokens form a block of the query's tokens. */
  lemma RecognisedIffBlock(name: string, q: string, v: Vocabulary)
    requires Settled(v)
    ensures Recognised(name, q, v)
            <==> |NormaliseWith(name, v)| >= 3 && Block(TokensWith(name, v), TokensWith(q, v))
  {
    KeyIsJoinedTokens(name, v);
    KeyIsJoinedTokens(q, v);
    var a, t := TokensWith(name, v), TokensWith(q, v);
    FinalWords(a, v);
    FinalWords(t, v);
    if a != [] {
      PaddedIffBlock(a, t);
      JoinFlat(a);
      assert Padded(Join(a)) == [' '] + Flat(a);
      if t == [] {
        if |Join(a)| >= 3 {
          TooLong(Padded(Join(a)), Padded([]));
        }
      } else {
        JoinFlat(t);
        assert Padded(Join(t)) == [' '] + Flat(t);
      }
    }
  }

  lemma FinalWords(ts: seq<string>, v: Vocabulary)
    requires forall w | w in ts :: Final(w, v)
    ensures AllWords(ts)
  {
    forall i | 0 <= i < |ts|
      ensures IsWord(ts[i], IsBlank)
    {
      assert ts[i] in ts;
      assert Clean(ts[i]);
    }
  }

  /** With the published vocabulary: the winner is the longest area whose tokens occur as a block. */
  lemma RecognitionInLagos(name: string, q: string)
    ensures Recognised(name, q, LAGOS)
            <==> |NormaliseSpec(name)| >= 3 && Block(TokensOf(name), TokensOf(q))
  {
    TablesAreSettled();
    RecognisedIffBlock(name, q, LAGOS);
  }

  /** An area ranks by the length of its key when its tokens stand together in the query, and not at all otherwise. */
  lemma RanksAre(areas: seq<Area>, q: string, i: nat)
    requires i < |areas|
    ensures Ranks(areas, q, LAGOS)[i]
            == if |NormaliseSpec(areas[i].name)| >= 3 && Block(TokensOf(areas[i].name), TokensOf(q))
               then |NormaliseSpec(areas[i].name)| else 0
  {
    RecognitionInLagos(areas[i].name, q);
  }

  lemma {:induction false} TooLong(needle: string, haystack: string)
    requires |needle| > |haystack|
    ensures !InText(needle, haystack)
  {
    if haystack != [] {
      TooLong(needle, haystack[1..]);
    }
  }
}
