/** The two-level bitmap over 4096 price indices: 64 words of one bit per index, and one summary word. */
module OccupancyTrees {
  import opened Types
  import opened Bits

  const L1_COUNT: nat := 64
  const L2_OFFSET: nat := 64
  const WORD_BITS: nat := 64

  /** m is the least member of s at or above i. */
  ghost predicate IsNext(s: set<nat>, i: nat, m: nat) {
    m in s && i <= m && forall x :: x in s && i <= x ==> m <= x
  }

  /** m is the greatest member of s at or below i. */
  ghost predicate IsPrev(s: set<nat>, i: nat, m: nat) {
    m in s && m <= i && forall x :: x in s && x <= i ==> x <= m
  }

  /** Index i has its bit set in the first level. */
  predicate Has(ws: seq<bv64>, i: nat)
    requires |ws| == L1_COUNT + 1 && i < PRICE_COUNT
  {
    Bit(ws[i / WORD_BITS], i % WORD_BITS)
  }

  ghost predicate FirstLevel(ws: seq<bv64>, s: set<nat>)
    requires |ws| == L1_COUNT + 1
  {
    && (forall i :: i in s ==> i < PRICE_COUNT)
    && (forall i {:trigger i in s} {:trigger Has(ws, i)} :: 0 <= i < PRICE_COUNT ==> (i in s <==> Has(ws, i)))
  }

  ghost predicate SecondLevel(ws: seq<bv64>)
    requires |ws| == L1_COUNT + 1
  {
    forall w {:trigger ws[w]} :: 0 <= w < L1_COUNT ==> (Bit(ws[L2_OFFSET], w) <==> ws[w] != 0)
  }

  ghost predicate Represents(ws: seq<bv64>, s: set<nat>) {
    |ws| == L1_COUNT + 1 && FirstLevel(ws, s) && SecondLevel(ws)
  }

  // ---------- updates of the words ----------

  lemma SetFirst(ws: seq<bv64>, s: set<nat>, i: nat)
    requires Represents(ws, s) && i < PRICE_COUNT
    ensures var w := i / WORD_BITS;
            var ws' := ws[w := Union(ws[w], OneBit(i % WORD_BITS))];
            FirstLevel(ws', s + {i}) && ws'[w] != 0
  {
    hide Bit, Union, OneBit;
    var w := i / WORD_BITS;
    var ws' := ws[w := Union(ws[w], OneBit(i % WORD_BITS))];
    forall k | 0 <= k < PRICE_COUNT
      ensures k in s + {i} <==> Has(ws', k)
    {
      SetBit(ws[w], i % WORD_BITS, k % WORD_BITS);
    }
    assert Has(ws', i);
    ZeroIffNoBit(ws'[w]);
  }

  lemma ClearFirst(ws: seq<bv64>, s: set<nat>, i: nat)
    requires Represents(ws, s) && i in s
    ensures var w := i / WORD_BITS;
            var ws' := ws[w := Common(ws[w], Flip(OneBit(i % WORD_BITS)))];
            FirstLevel(ws', s - {i}) && ws[w] != 0
  {
    hide Bit, Common, Flip, OneBit;
    var w := i / WORD_BITS;
    var ws' := ws[w := Common(ws[w], Flip(OneBit(i % WORD_BITS)))];
    forall k | 0 <= k < PRICE_COUNT
      ensures k in s - {i} <==> Has(ws', k)
    {
      ClearBit(ws[w], i % WORD_BITS, k % WORD_BITS);
    }
    assert Has(ws, i);
    ZeroIffNoBit(ws[w]);
  }

  /** Changing only the summary word keeps the first level. */
  lemma SummaryApart(ws: seq<bv64>, s: set<nat>, v: bv64)
    requires |ws| == L1_COUNT + 1 && FirstLevel(ws, s)
    ensures FirstLevel(ws[L2_OFFSET := v], s)
  {
    hide Bit;
    var ws' := ws[L2_OFFSET := v];
    forall k | 0 <= k < PRICE_COUNT
      ensures k in s <==> Has(ws', k)
    {
      assert ws'[k / WORD_BITS] == ws[k / WORD_BITS];
    }
  }

  /** After word w turned non-zero, setting its summary bit restores the second level. */
  lemma RaiseSummary(before: seq<bv64>, ws: seq<bv64>, w: nat)
    requires |before| == |ws| == L1_COUNT + 1 && w < L1_COUNT && SecondLevel(before)
    requires ws == before[w := ws[w]] && ws[w] != 0
    ensures SecondLevel(ws[L2_OFFSET := Union(ws[L2_OFFSET], OneBit(w))])
  {
    hide Bit, Union, OneBit;
    forall k | 0 <= k < L1_COUNT
      ensures Bit(Union(ws[L2_OFFSET], OneBit(w)), k) <==> ws[k] != 0
    {
      SetBit(ws[L2_OFFSET], w, k);
      assert k != w ==> ws[k] == before[k];
    }
  }

  /** After word w turned zero, clearing its summary bit restores the second level. */
  lemma LowerSummary(before: seq<bv64>, ws: seq<bv64>, w: nat)
    requires |before| == |ws| == L1_COUNT + 1 && w < L1_COUNT && SecondLevel(before)
    requires ws == before[w := ws[w]] && ws[w] == 0
    ensures SecondLevel(ws[L2_OFFSET := Common(ws[L2_OFFSET], Flip(OneBit(w)))])
  {
    hide Bit, Common, Flip, OneBit;
    forall k | 0 <= k < L1_COUNT
      ensures Bit(Common(ws[L2_OFFSET], Flip(OneBit(w))), k) <==> ws[k] != 0
    {
      ClearBit(ws[L2_OFFSET], w, k);
      assert k != w ==> ws[k] == before[k];
    }
  }

  /** A word that stays non-zero needs no change of the summary. */
  lemma SummaryStays(before: seq<bv64>, ws: seq<bv64>, w: nat)
    requires |before| == |ws| == L1_COUNT + 1 && w < L1_COUNT && SecondLevel(before)
    requires ws == before[w := ws[w]] && ws[w] != 0 && before[w] != 0
    ensures SecondLevel(ws)
  {
    hide Bit;
    forall k | 0 <= k < L1_COUNT
      ensures Bit(ws[L2_OFFSET], k) <==> ws[k] != 0
    {
      assert k != w ==> ws[k] == before[k];
      assert Bit(before[L2_OFFSET], k) <==> before[k] != 0;
    }
  }

  // ---------- what the words say ----------

  /** A bit of a word is a member, and a non-zero word has one. */
  lemma WordBit(ws: seq<bv64>, s: set<nat>, w: nat, b: nat)
    requires Represents(ws, s) && w < L1_COUNT && b < WORD_BITS
    ensures Bit(ws[w], b) <==> w * WORD_BITS + b in s
  {
    hide Bit;
    var i := w * WORD_BITS + b;
    assert i / WORD_BITS == w && i % WORD_BITS == b;
    assert Has(ws, i) == Bit(ws[w], b);
  }

  /** A member lies in a non-zero word, which the summary shows. */
  lemma MemberWord(ws: seq<bv64>, s: set<nat>, i: nat)
    requires Represents(ws, s) && i in s
    ensures i < PRICE_COUNT
    ensures ws[i / WORD_BITS] != 0 && Bit(ws[i / WORD_BITS], i % WORD_BITS) && Bit(ws[L2_OFFSET], i / WORD_BITS)
  {
    hide Bit;
    assert Has(ws, i);
    ZeroIffNoBit(ws[i / WORD_BITS]);
  }

  lemma SummaryBit(ws: seq<bv64>, s: set<nat>, w: nat)
    requires Represents(ws, s) && w < L1_COUNT
    ensures Bit(ws[L2_OFFSET], w) <==> ws[w] != 0
  {}

  /** The summary word is zero exactly for the empty set. */
  lemma SummaryZero(ws: seq<bv64>, s: set<nat>)
    requires Represents(ws, s)
    ensures ws[L2_OFFSET] == 0 <==> s == {}
  {
    hide Bit;
    ZeroIffNoBit(ws[L2_OFFSET]);
    if ws[L2_OFFSET] != 0 {
      var w :| 0 <= w < 64 && Bit(ws[L2_OFFSET], w);
      assert ws[w] != 0;
      ZeroIffNoBit(ws[w]);
      var b :| 0 <= b < 64 && Bit(ws[w], b);
      WordBit(ws, s, w, b);
    } else if s != {} {
      var i :| i in s;
      MemberWord(ws, s, i);
      assert false;
    }
  }

  // ---------- searching ----------

  /** The masked word holds exactly the members of its word at or above pos. */
  lemma MaskedHigh(ws: seq<bv64>, s: set<nat>, pos: nat, b: nat)
    requires |ws| == L1_COUNT + 1 && Represents(ws, s) && pos < PRICE_COUNT && b < WORD_BITS
    ensures var w := pos / WORD_BITS;
            Bit(Common(ws[w], MaskHigh(pos % WORD_BITS)), b) <==>
            pos <= w * WORD_BITS + b && w * WORD_BITS + b in s
  {
    hide Bit, Common, MaskHigh, CountrZero, FirstLevel, SecondLevel;
    HighBits(ws[pos / WORD_BITS], pos % WORD_BITS, b);
    WordBit(ws, s, pos / WORD_BITS, b);
  }

  lemma MaskedLow(ws: seq<bv64>, s: set<nat>, pos: nat, b: nat)
    requires |ws| == L1_COUNT + 1 && Represents(ws, s) && pos < PRICE_COUNT && b < WORD_BITS
    ensures var w := pos / WORD_BITS;
            Bit(Common(ws[w], MaskLow(pos % WORD_BITS)), b) <==>
            w * WORD_BITS + b <= pos && w * WORD_BITS + b in s
  {
    hide Bit, Common, MaskLow, Top, FirstLevel, SecondLevel;
    LowBits(ws[pos / WORD_BITS], pos % WORD_BITS, b);
    WordBit(ws, s, pos / WORD_BITS, b);
  }

  /** A hit in the word of pos itself is the answer. */
  lemma NextHere(ws: seq<bv64>, s: set<nat>, pos: nat)
    requires |ws| == L1_COUNT + 1 && Represents(ws, s) && pos < PRICE_COUNT
    ensures var w := pos / WORD_BITS;
            var word := Common(ws[w], MaskHigh(pos % WORD_BITS));
            if word != 0 then IsNext(s, pos, w * WORD_BITS + CountrZero(word))
            else forall x :: x in s && pos <= x ==> x / WORD_BITS > w
  {
    hide Bit, Common, MaskHigh, CountrZero, FirstLevel, SecondLevel;
    var w := pos / WORD_BITS;
    var word := Common(ws[w], MaskHigh(pos % WORD_BITS));
    ZeroIffNoBit(word);
    if word != 0 {
      MaskedHigh(ws, s, pos, CountrZero(word));
    }
    forall x | x in s && pos <= x
      ensures word != 0 ==> w * WORD_BITS + CountrZero(word) <= x
      ensures word == 0 ==> x / WORD_BITS > w
    {
      MemberWord(ws, s, x);
      if x / WORD_BITS == w {
        MaskedHigh(ws, s, pos, x % WORD_BITS);
      }
    }
  }

  /** Otherwise the summary leads to the first later word, and its lowest bit is the answer. */
  lemma NextLater(ws: seq<bv64>, s: set<nat>, pos: nat)
    requires |ws| == L1_COUNT + 1 && Represents(ws, s) && pos < PRICE_COUNT
    requires exists x :: x in s && pos <= x
    requires forall x :: x in s && pos <= x ==> x / WORD_BITS > pos / WORD_BITS
    ensures pos / WORD_BITS + 1 < L1_COUNT
    ensures var word2 := Common(ws[L2_OFFSET], MaskHigh(pos / WORD_BITS + 1));
            var t := CountrZero(word2);
            word2 != 0 && ws[t] != 0 && IsNext(s, pos, t * WORD_BITS + CountrZero(ws[t]))
  {
    hide Bit, Common, MaskHigh, CountrZero, FirstLevel, SecondLevel;
    var w := pos / WORD_BITS;
    var x0 :| x0 in s && pos <= x0;
    MemberWord(ws, s, x0);
    var word2 := Common(ws[L2_OFFSET], MaskHigh(w + 1));
    HighBits(ws[L2_OFFSET], w + 1, x0 / WORD_BITS);
    ZeroIffNoBit(word2);
    var t := CountrZero(word2);
    HighBits(ws[L2_OFFSET], w + 1, t);
    SummaryBit(ws, s, t);
    var c := CountrZero(ws[t]);
    WordBit(ws, s, t, c);
    forall x | x in s && pos <= x
      ensures t * WORD_BITS + c <= x
    {
      MemberWord(ws, s, x);
      HighBits(ws[L2_OFFSET], w + 1, x / WORD_BITS);
      assert t <= x / WORD_BITS;
    }
  }

  function NextSet(ws: seq<bv64>, ghost s: set<nat>, pos: nat): (found: nat)
    requires |ws| == L1_COUNT + 1 && Represents(ws, s) && pos < PRICE_COUNT
    requires exists x :: x in s && pos <= x
    ensures IsNext(s, pos, found)
  {
    hide Bit, Common, MaskHigh, CountrZero, FirstLevel, SecondLevel;
    NextHere(ws, s, pos);
    var w := pos / WORD_BITS;
    var word := Common(ws[w], MaskHigh(pos % WORD_BITS));
    if word != 0 then
      w * WORD_BITS + CountrZero(word)
    else
      NextLater(ws, s, pos);
      var word2 := Common(ws[L2_OFFSET], MaskHigh(w + 1));
      var target := CountrZero(word2);
      target * WORD_BITS + CountrZero(ws[target])
  }

  lemma PrevHere(ws: seq<bv64>, s: set<nat>, pos: nat)
    requires |ws| == L1_COUNT + 1 && Represents(ws, s) && pos < PRICE_COUNT
    ensures var w := pos / WORD_BITS;
            var word := Common(ws[w], MaskLow(pos % WORD_BITS));
            if word != 0 then IsPrev(s, pos, w * WORD_BITS + Top(word))
            else forall x :: x in s && x <= pos ==> x / WORD_BITS < w
  {
    hide Bit, Common, MaskLow, Top, FirstLevel, SecondLevel;
    var w := pos / WORD_BITS;
    var word := Common(ws[w], MaskLow(pos % WORD_BITS));
    ZeroIffNoBit(word);
    if word != 0 {
      MaskedLow(ws, s, pos, Top(word));
    }
    forall x | x in s && x <= pos
      ensures word != 0 ==> x <= w * WORD_BITS + Top(word)
      ensures word == 0 ==> x / WORD_BITS < w
    {
      MemberWord(ws, s, x);
      if x / WORD_BITS == w {
        MaskedLow(ws, s, pos, x % WORD_BITS);
      }
    }
  }

  lemma PrevEarlier(ws: seq<bv64>, s: set<nat>, pos: nat)
    requires |ws| == L1_COUNT + 1 && Represents(ws, s) && pos < PRICE_COUNT
    requires exists x :: x in s && x <= pos
    requires forall x :: x in s && x <= pos ==> x / WORD_BITS < pos / WORD_BITS
    ensures pos / WORD_BITS > 0
    ensures var word2 := Common(ws[L2_OFFSET], MaskLow(pos / WORD_BITS - 1));
            word2 != 0 &&
            var t := Top(word2);
            ws[t] != 0 && IsPrev(s, pos, t * WORD_BITS + Top(ws[t]))
  {
    hide Bit, Common, MaskLow, Top, FirstLevel, SecondLevel;
    var w := pos / WORD_BITS;
    var x0 :| x0 in s && x0 <= pos;
    var word2 := Common(ws[L2_OFFSET], MaskLow(w - 1));
    MemberWord(ws, s, x0);
    LowBits(ws[L2_OFFSET], w - 1, x0 / WORD_BITS);
    ZeroIffNoBit(word2);
    var t := Top(word2);
    LowBits(ws[L2_OFFSET], w - 1, t);
    SummaryBit(ws, s, t);
    var c := Top(ws[t]);
    WordBit(ws, s, t, c);
    forall x | x in s && x <= pos
      ensures x <= t * WORD_BITS + c
    {
      MemberWord(ws, s, x);
      LowBits(ws[L2_OFFSET], w - 1, x / WORD_BITS);
      assert x / WORD_BITS <= t;
    }
  }

  function PrevSet(ws: seq<bv64>, ghost s: set<nat>, pos: nat): (found: nat)
    requires |ws| == L1_COUNT + 1 && Represents(ws, s) && pos < PRICE_COUNT
    requires exists x :: x in s && x <= pos
    ensures IsPrev(s, pos, found)
  {
    hide Bit, Common, MaskLow, Top, FirstLevel, SecondLevel;
    PrevHere(ws, s, pos);
    var w := pos / WORD_BITS;
    var word := Common(ws[w], MaskLow(pos % WORD_BITS));
    if word != 0 then
      w * WORD_BITS + Top(word)
    else
      PrevEarlier(ws, s, pos);
      var word2 := Common(ws[L2_OFFSET], MaskLow(w - 1));
      var target := Top(word2);
      target * WORD_BITS + Top(ws[target])
  }

  /** When every member is worse than pos, the nearest one on the worse side is the best of all. */
  lemma AllBeyond(isAsk: bool, s: set<nat>, pos: nat)
    requires s != {} && forall x :: x in s ==> Better(isAsk, pos, x)
    ensures isAsk ==> (exists x :: x in s && pos <= x) && forall m: nat :: IsNext(s, pos, m) ==> IsBest(isAsk, m, s)
    ensures !isAsk ==> (exists x :: x in s && x <= pos) && forall m: nat :: IsPrev(s, pos, m) ==> IsBest(isAsk, m, s)
  {
    var x :| x in s;
    assert Better(isAsk, pos, x);
  }

  class OccupancyTree {
    const words: array<bv64>
    ghost var members: set<nat>

    ghost predicate Valid()
      reads this, words
    {
      Represents(words[..], members)
    }

    constructor ()
      ensures Valid() && fresh(words) && members == {}
    {
      words := new bv64[L1_COUNT + 1](_ => 0);
      members := {};
      new;
      ZeroIffNoBit(0);
      assert forall i :: 0 <= i < PRICE_COUNT ==> !Has(words[..], i) by { hide Bit; }
      assert SecondLevel(words[..]) by { hide Bit; }
    }

    method Set(bit: nat)
      requires Valid() && bit < PRICE_COUNT
      modifies this, words
      ensures Valid() && members == old(members) + {bit}
    {
      hide Bit, Union, OneBit, FirstLevel, SecondLevel;
      var w := bit / WORD_BITS;
      var wasEmpty := words[w] == 0;
      SetFirst(words[..], members, bit);
      words[w] := Union(words[w], OneBit(bit % WORD_BITS));
      members := members + {bit};
      assert words[..] == old(words[..])[w := words[w]];
      if !wasEmpty {
        SummaryStays(old(words[..]), words[..], w);
        return;
      }
      RaiseSummary(old(words[..]), words[..], w);
      SummaryApart(words[..], members, Union(words[L2_OFFSET], OneBit(w)));
      ghost var mid := words[..];
      words[L2_OFFSET] := Union(words[L2_OFFSET], OneBit(w));
      assert words[..] == mid[L2_OFFSET := words[L2_OFFSET]];
    }

    method Clear(bit: nat)
      requires Valid() && bit in members
      modifies this, words
      ensures Valid() && members == old(members) - {bit}
    {
      assert bit < PRICE_COUNT;
      hide Bit, Common, Flip, OneBit, FirstLevel, SecondLevel;
      var w := bit / WORD_BITS;
      ClearFirst(words[..], members, bit);
      words[w] := Common(words[w], Flip(OneBit(bit % WORD_BITS)));
      members := members - {bit};
      assert words[..] == old(words[..])[w := words[w]];
      if words[w] != 0 {
        SummaryStays(old(words[..]), words[..], w);
        return;
      }
      LowerSummary(old(words[..]), words[..], w);
      SummaryApart(words[..], members, Common(words[L2_OFFSET], Flip(OneBit(w))));
      ghost var mid := words[..];
      words[L2_OFFSET] := Common(words[L2_OFFSET], Flip(OneBit(w)));
      assert words[..] == mid[L2_OFFSET := words[L2_OFFSET]];
    }

    function Empty(): (r: bool)
      requires Valid()
      reads this, words
      ensures r <==> members == {}
    {
      SummaryZero(words[..], members);
      words[L2_OFFSET] == 0
    }

    function FindNextSet(pos: nat): (found: nat)
      requires Valid() && pos < PRICE_COUNT
      requires exists x :: x in members && pos <= x
      reads this, words
      ensures IsNext(members, pos, found)
    {
      NextSet(words[..], members, pos)
    }

    function FindPrevSet(pos: nat): (found: nat)
      requires Valid() && pos < PRICE_COUNT
      requires exists x :: x in members && x <= pos
      reads this, words
      ensures IsPrev(members, pos, found)
    {
      PrevSet(words[..], members, pos)
    }

    /** The most aggressive remaining index once every better one is gone. */
    function NextBest(isAsk: bool, pos: nat): (found: nat)
      requires Valid() && pos < PRICE_COUNT && members != {}
      requires forall x :: x in members ==> Better(isAsk, pos, x)
      reads this, words
      ensures IsBest(isAsk, found, members)
    {
      hide Represents, NextSet, PrevSet;
      AllBeyond(isAsk, members, pos);
      if isAsk then FindNextSet(pos) else FindPrevSet(pos)
    }
  }
}
