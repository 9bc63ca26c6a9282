/** `SecretHelpers`: the split of the four code positions between the Clue
    Finder and the Trivia Helper, and the `*`-masked patterns they show.
    The `random.shuffle` of the positions is the parameter `perm`. */
module SecretHelpers {
  import opened SecretCode

  /** `perm` is a shuffle of `list(range(4))`: four entries among which
      each of 0..3 occurs (so each occurs exactly once). */
  predicate IsShuffle(perm: seq<int>) {
    |perm| == 4 && forall p :: 0 <= p < 4 ==> p in perm
  }

  predicate IsAscending(s: seq<int>) {
    forall i, j :: 0 <= i < j < |s| ==> s[i] <= s[j]
  }

  function Insert(x: int, s: seq<int>): (r: seq<int>)
    requires IsAscending(s)
    ensures IsAscending(r) && multiset(r) == multiset(s) + multiset{x}
    ensures r[0] == x || (s != [] && r[0] == s[0])
  {
    if s == [] then [x]
    else if x <= s[0] then AscendingCons(x, s); [x] + s
    else
      assert s == [s[0]] + s[1..];
      var rest := Insert(x, s[1..]);
      AscendingCons(s[0], rest);
      assert multiset([s[0]] + rest) == multiset{s[0]} + multiset(rest);
      [s[0]] + rest
  }

  lemma AscendingCons(a: int, s: seq<int>)
    requires IsAscending(s) && (s != [] ==> a <= s[0])
    ensures IsAscending([a] + s)
  {
  }

  /** Python's `sorted` on a list of integers. */
  function SortAscending(s: seq<int>): (r: seq<int>)
    ensures IsAscending(r) && multiset(r) == multiset(s)
  {
    if s == [] then []
    else
      assert s == [s[0]] + s[1..];
      Insert(s[0], SortAscending(s[1..]))
  }

  /** `[p for p in s if p not in excluded]`: each kept element as often as
      it occurs in `s`. */
  function Without(s: seq<int>, excluded: seq<int>): (r: seq<int>)
    ensures forall x :: x in r <==> x in s && x !in excluded
    ensures forall x :: multiset(r)[x] == if x in excluded then 0 else multiset(s)[x]
  {
    if s == [] then []
    else
      assert s == [s[0]] + s[1..];
      (if s[0] in excluded then [] else [s[0]]) + Without(s[1..], excluded)
  }

  /** The two helpers' position lists: each two positions in ascending
      order, disjoint, together all of 0..3. */
  predicate IsPositionSplit(clue: seq<int>, trivia: seq<int>) {
    && |clue| == 2 && |trivia| == 2
    && clue[0] < clue[1] && trivia[0] < trivia[1]
    && (forall p :: p in clue ==> p !in trivia)
    && (set p | p in clue) + (set p | p in trivia) == {0, 1, 2, 3}
  }

  datatype Helpers = Helpers(secret: string, cluePositions: seq<int>, triviaPositions: seq<int>)

  predicate ValidHelpers(h: Helpers) {
    IsSecretCode(h.secret) && IsPositionSplit(h.cluePositions, h.triviaPositions)
  }

  /** A shuffle of `list(range(4))` holds four distinct positions that
      together are all of 0..3. */
  lemma ShuffleElements(perm: seq<int>)
    requires IsShuffle(perm)
    ensures |perm| == 4
    ensures perm[0] != perm[1] && perm[0] != perm[2] && perm[0] != perm[3]
    ensures perm[1] != perm[2] && perm[1] != perm[3] && perm[2] != perm[3]
    ensures {perm[0], perm[1], perm[2], perm[3]} == {0, 1, 2, 3}
  {
    var a, b, c, d := perm[0], perm[1], perm[2], perm[3];
    assert perm == [a, b, c, d];
    assert 0 in perm && 1 in perm && 2 in perm && 3 in perm;
  }

  /** `SecretHelpers.__init__`: the clue positions are the first two
      shuffled positions sorted, the trivia positions the other two sorted. */
  function NewHelpers(secret: string, perm: seq<int>): (h: Helpers)
    requires IsSecretCode(secret) && IsShuffle(perm)
    ensures ValidHelpers(h) && h.secret == secret
    ensures (set p | p in h.cluePositions) == {perm[0], perm[1]}
  {
    ShuffleElements(perm);
    var clue := SortAscending(perm[..2]);
    var trivia := SortAscending(Without(perm, clue));
    SplitOfShuffle(perm);
    Helpers(secret, clue, trivia)
  }

  /** `sorted` on a two-element list. */
  lemma SortTwo(a: int, b: int)
    ensures SortAscending([a, b]) == if a <= b then [a, b] else [b, a]
  {
    assert [a, b][1..] == [b];
    assert [b][1..] == [];
  }

  lemma WithoutFirstTwo(a: int, b: int, c: int, d: int, excluded: seq<int>)
    requires a in excluded && b in excluded && c !in excluded && d !in excluded
    ensures Without([a, b, c, d], excluded) == [c, d]
  {
    assert [d][1..] == [];
    assert Without([d], excluded) == [d];
    assert [c, d][1..] == [d];
    assert Without([c, d], excluded) == [c, d];
    assert [b, c, d][1..] == [c, d];
    assert Without([b, c, d], excluded) == [c, d];
    assert [a, b, c, d][1..] == [b, c, d];
  }

  /** Four distinct positions in 0..3 split as (a, b) and (c, d). */
  lemma SplitOfFour(a: int, b: int, c: int, d: int, clue: seq<int>, trivia: seq<int>)
    requires {a, b, c, d} == {0, 1, 2, 3}
    requires a != b && a != c && a != d && b != c && b != d && c != d
    requires clue == (if a <= b then [a, b] else [b, a])
    requires trivia == (if c <= d then [c, d] else [d, c])
    ensures IsPositionSplit(clue, trivia)
    ensures (set p | p in clue) == {a, b}
  {
    assert (set p | p in clue) == {a, b};
    assert (set p | p in trivia) == {c, d};
  }

  /** The clue positions: the first two shuffled positions, sorted. */
  lemma ClueOfShuffle(perm: seq<int>)
    requires |perm| == 4
    requires perm[0] != perm[2] && perm[0] != perm[3] && perm[1] != perm[2] && perm[1] != perm[3]
    ensures SortAscending(perm[..2]) == if perm[0] <= perm[1] then [perm[0], perm[1]] else [perm[1], perm[0]]
    ensures perm[0] in SortAscending(perm[..2]) && perm[1] in SortAscending(perm[..2])
    ensures perm[2] !in SortAscending(perm[..2]) && perm[3] !in SortAscending(perm[..2])
  {
    assert perm[..2] == [perm[0], perm[1]];
    SortTwo(perm[0], perm[1]);
  }

  /** The trivia positions: the last two shuffled positions, sorted. */
  lemma TriviaOfShuffle(perm: seq<int>, clue: seq<int>)
    requires |perm| == 4
    requires perm[0] in clue && perm[1] in clue && perm[2] !in clue && perm[3] !in clue
    ensures SortAscending(Without(perm, clue)) == if perm[2] <= perm[3] then [perm[2], perm[3]] else [perm[3], perm[2]]
  {
    assert perm == [perm[0], perm[1], perm[2], perm[3]];
    WithoutFirstTwo(perm[0], perm[1], perm[2], perm[3], clue);
    SortTwo(perm[2], perm[3]);
  }

  /** For every shuffle, the clue positions (the first two, sorted) and the
      trivia positions (the rest, sorted) form a valid split. */
  lemma SplitOfShuffle(perm: seq<int>)
    requires IsShuffle(perm)
    ensures var clue := SortAscending(perm[..2]);
            && IsPositionSplit(clue, SortAscending(Without(perm, clue)))
            && (set p | p in clue) == {perm[0], perm[1]}
  {
    var clue := SortAscending(perm[..2]);
    var trivia := SortAscending(Without(perm, clue));
    ShuffleElements(perm);
    ClueOfShuffle(perm);
    TriviaOfShuffle(perm, clue);
    SplitOfFour(perm[0], perm[1], perm[2], perm[3], clue, trivia);
  }

  /** The pattern a helper shows: the secret's digit at each listed position
      and `*` everywhere else. */
  function Mask(secret: string, positions: seq<int>): (pattern: string)
    requires |secret| == 4
    ensures |pattern| == 4
  {
    seq(4, i requires 0 <= i < 4 => if i in positions then secret[i] else '*')
  }

  /** The loop shared by `clue_finder` and `trivia_helper`: start from
      `"****"` and copy the secret's digit into each listed position. */
  method BuildPattern(secret: string, positions: seq<int>) returns (pattern: string)
    requires |secret| == 4
    requires forall k :: 0 <= k < |positions| ==> 0 <= positions[k] < 4
    ensures pattern == Mask(secret, positions)
  {
    var s := "****";
    for k := 0 to |positions|
      invariant |s| == 4
      invariant forall i :: 0 <= i < 4 ==> s[i] == if i in positions[..k] then secret[i] else '*'
    {
      s := s[positions[k] := secret[positions[k]]];
      assert positions[..k + 1] == positions[..k] + [positions[k]];
    }
    assert positions[..|positions|] == positions;
    pattern := s;
  }

  /** Every listed position is a valid index into the code. */
  lemma SplitInRange(clue: seq<int>, trivia: seq<int>)
    requires IsPositionSplit(clue, trivia)
    ensures forall k :: 0 <= k < |clue| ==> 0 <= clue[k] < 4
    ensures forall k :: 0 <= k < |trivia| ==> 0 <= trivia[k] < 4
  {
    forall k | 0 <= k < 2 ensures 0 <= clue[k] < 4 && 0 <= trivia[k] < 4 {
      assert clue[k] in (set p | p in clue) + (set p | p in trivia);
      assert trivia[k] in (set p | p in clue) + (set p | p in trivia);
    }
  }

  /** `clue_finder`: the pattern over the clue positions. Being a function
      of the helper's fixed state, it is the same on every call. */
  method ClueFinder(h: Helpers) returns (pattern: string)
    requires ValidHelpers(h)
    ensures pattern == Mask(h.secret, h.cluePositions)
  {
    SplitInRange(h.cluePositions, h.triviaPositions);
    pattern := BuildPattern(h.secret, h.cluePositions);
  }

  /** Lays pattern `a` over pattern `b`: a `*` in `a` lets `b` show through. */
  function Overlay(a: string, b: string): (r: string)
    requires |a| == |b|
    ensures |r| == |a|
  {
    seq(|a|, i requires 0 <= i < |a| => if a[i] != '*' then a[i] else b[i])
  }

  /** A mask shows a digit exactly at its positions, and the digit shown
      is the secret's. */
  lemma MaskShowsPositions(secret: string, positions: seq<int>, i: int)
    requires IsSecretCode(secret) && 0 <= i < 4
    ensures Mask(secret, positions)[i] != '*' <==> i in positions
    ensures i in positions ==> Mask(secret, positions)[i] == secret[i]
  {
  }

  /** What a mask shows depends only on the secret's digits at its
      positions, and it determines those digits. */
  lemma MaskDeterminesDigits(s1: string, s2: string, positions: seq<int>)
    requires IsSecretCode(s1) && IsSecretCode(s2)
    ensures Mask(s1, positions) == Mask(s2, positions) <==>
            forall i :: 0 <= i < 4 && i in positions ==> s1[i] == s2[i]
  {
    if Mask(s1, positions) == Mask(s2, positions) {
      forall i | 0 <= i < 4 && i in positions ensures s1[i] == s2[i] {
        assert Mask(s1, positions)[i] == Mask(s2, positions)[i];
      }
    }
  }

  /** The clue pattern and the trivia pattern together give back the whole
      secret code, in either order. */
  lemma {:induction false} MasksRecombine(h: Helpers)
    requires ValidHelpers(h)
    ensures Overlay(Mask(h.secret, h.cluePositions), Mask(h.secret, h.triviaPositions)) == h.secret
    ensures Overlay(Mask(h.secret, h.triviaPositions), Mask(h.secret, h.cluePositions)) == h.secret
  {
    var clue, trivia := h.cluePositions, h.triviaPositions;
    forall i | 0 <= i < 4 ensures i in clue || i in trivia {
      assert i in (set p | p in clue) + (set p | p in trivia);
    }
  }

  /** The two patterns never both show a digit at the same position. */
  lemma MasksDisjoint(h: Helpers, i: int)
    requires ValidHelpers(h) && 0 <= i < 4
    ensures Mask(h.secret, h.cluePositions)[i] == '*' || Mask(h.secret, h.triviaPositions)[i] == '*'
  {
  }

  /** A worked example: code 4821 split as [0, 3] / [1, 2]. */
  lemma ExampleMasks()
    ensures Mask("4821", [0, 3]) == "4**1"
    ensures Mask("4821", [1, 2]) == "*82*"
  {
  }
}
