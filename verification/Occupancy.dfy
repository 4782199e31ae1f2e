/**
 The per-side occupancy bitmaps of the dense book and the scans that find the best level.
 A 64-bit word is modelled by its value; `|= 1 << i` and `&= ~(1 << i)` by binary recursion.
 */
module Occupancy {
  import opened Machine

  ghost predicate Bit(w: nat, i: nat)
  {
    if i == 0 then w % 2 == 1 else Bit(w / 2, i - 1)
  }

  /** `w | 1 << i`. */
  function WithBit(w: nat, i: nat): nat
  {
    if i == 0 then w - w % 2 + 1 else w % 2 + 2 * WithBit(w / 2, i - 1)
  }

  /** `w & ~(1 << i)`. */
  function WithoutBit(w: nat, i: nat): nat
  {
    if i == 0 then w - w % 2 else w % 2 + 2 * WithoutBit(w / 2, i - 1)
  }

  lemma {:induction false} SetBit(w: nat, i: nat, j: nat)
    ensures Bit(WithBit(w, i), j) <==> i == j || Bit(w, j)
  {
    if i > 0 && j > 0 {
      SetBit(w / 2, i - 1, j - 1);
    }
  }

  lemma {:induction false} ClearBit(w: nat, i: nat, j: nat)
    ensures Bit(WithoutBit(w, i), j) <==> i != j && Bit(w, j)
  {
    if i > 0 && j > 0 {
      ClearBit(w / 2, i - 1, j - 1);
    }
  }

  /** A value of `k` bits; words are values of 64 bits. */
  ghost predicate Fits(w: nat, k: nat)
  {
    if k == 0 then w == 0 else Fits(w / 2, k - 1)
  }

  lemma {:induction false} UpdateFits(w: nat, i: nat, k: nat)
    requires Fits(w, k) && i < k
    ensures Fits(WithBit(w, i), k) && Fits(WithoutBit(w, i), k)
  {
    if i > 0 {
      UpdateFits(w / 2, i - 1, k - 1);
    } else {
      assert WithBit(w, i) / 2 == w / 2 && WithoutBit(w, i) / 2 == w / 2;
    }
  }

  lemma {:induction false} NoBitAbove(w: nat, k: nat, j: nat)
    requires Fits(w, k) && k <= j
    ensures !Bit(w, j)
    decreases j
  {
    if k > 0 {
      NoBitAbove(w / 2, k - 1, j - 1);
    } else if j > 0 {
      assert Fits(0, 0);
      NoBitAbove(0, 0, j - 1);
    }
  }

  /** `w >> k`. */
  ghost function Shifted(w: nat, k: nat): nat
  {
    if k == 0 then w else Shifted(w / 2, k - 1)
  }

  lemma {:induction false} ShiftOnce(w: nat, k: nat)
    ensures Shifted(w, k + 1) == Shifted(w, k) / 2
  {
    if k > 0 {
      ShiftOnce(w / 2, k - 1);
    }
  }

  lemma {:induction false} BitOfShifted(w: nat, k: nat, j: nat)
    ensures Bit(Shifted(w, k), j) == Bit(w, k + j)
  {
    if k > 0 {
      BitOfShifted(w / 2, k - 1, j);
    }
  }

  /** Index of the lowest set bit, by the portable loop. */
  method LowestBit(word: nat) returns (index: nat)
    requires word != 0
    ensures Bit(word, index) && forall j :: 0 <= j < index ==> !Bit(word, j)
  {
    var bits := word;
    index := 0;
    while bits % 2 == 0
      invariant bits > 0 && bits == Shifted(word, index)
      invariant forall j :: 0 <= j < index ==> !Bit(word, j)
      decreases bits
    {
      BitOfShifted(word, index, 0);
      ShiftOnce(word, index);
      bits := bits / 2;
      index := index + 1;
    }
    BitOfShifted(word, index, 0);
  }

  /** Index of the highest set bit, by the portable loop. */
  method HighestBit(word: nat) returns (index: nat)
    requires word != 0
    ensures Bit(word, index) && forall j :: index < j ==> !Bit(word, j)
  {
    var bits := word;
    index := 0;
    while bits / 2 != 0
      invariant bits > 0 && bits == Shifted(word, index)
      decreases bits
    {
      ShiftOnce(word, index);
      bits := bits / 2;
      index := index + 1;
    }
    BitOfShifted(word, index, 0);
    forall j | index < j
      ensures !Bit(word, j)
    {
      BitOfShifted(word, index, j - index);
      NoBitAbove(bits, 1, j - index);
    }
  }

  lemma {:induction false} ZeroHasNoBit(j: nat)
    ensures !Bit(0, j)
  {
    if j > 0 {
      ZeroHasNoBit(j - 1);
    }
  }

  lemma {:induction false} ZeroFits(k: nat)
    ensures Fits(0, k)
  {
    if k > 0 {
      ZeroFits(k - 1);
    }
  }

  /** Level `l` is marked in a bitmap of 64-bit words. */
  ghost predicate Marked(words: seq<nat>, l: nat)
  {
    l / 64 < |words| && Bit(words[l / 64], l % 64)
  }

  ghost predicate Words(words: seq<nat>)
  {
    forall i :: 0 <= i < |words| ==> Fits(words[i], 64)
  }

  method Mark(words: array<nat>, level: nat)
    requires Words(words[..]) && level / 64 < words.Length
    modifies words
    ensures Words(words[..])
    ensures forall l: nat :: Marked(words[..], l) <==> l == level || Marked(old(words[..]), l)
  {
    var i := level / 64;
    UpdateFits(words[i], level % 64, 64);
    words[i] := WithBit(words[i], level % 64);
    forall l: nat
      ensures Marked(words[..], l) <==> l == level || Marked(old(words[..]), l)
    {
      SetBit(old(words[i]), level % 64, l % 64);
    }
  }

  method Unmark(words: array<nat>, level: nat)
    requires Words(words[..]) && level / 64 < words.Length
    modifies words
    ensures Words(words[..])
    ensures forall l: nat :: Marked(words[..], l) <==> l != level && Marked(old(words[..]), l)
  {
    var i := level / 64;
    UpdateFits(words[i], level % 64, 64);
    words[i] := WithoutBit(words[i], level % 64);
    forall l: nat
      ensures Marked(words[..], l) <==> l != level && Marked(old(words[..]), l)
    {
      ClearBit(old(words[i]), level % 64, l % 64);
    }
  }

  /** Word-then-bit scan for the extreme marked level. */
  method FindBest(words: array<nat>, highest: bool) returns (r: Option<nat>)
    requires Words(words[..])
    ensures r == None ==> forall l: nat :: !Marked(words[..], l)
    ensures r.Some? ==> Marked(words[..], r.value)
    ensures r.Some? && highest ==> forall l: nat :: Marked(words[..], l) ==> l <= r.value
    ensures r.Some? && !highest ==> forall l: nat :: Marked(words[..], l) ==> r.value <= l
  {
    if highest {
      var word := words.Length;
      while word > 0
        invariant word <= words.Length
        invariant forall l: nat :: Marked(words[..], l) ==> l / 64 < word
      {
        word := word - 1;
        if words[word] != 0 {
          var bit := HighestBit(words[word]);
          if bit >= 64 { NoBitAbove(words[..][word], 64, bit); }
          return Some(word * 64 + bit);
        }
        forall l: nat | l / 64 == word
          ensures !Marked(words[..], l)
        {
          ZeroHasNoBit(l % 64);
        }
      }
    } else {
      var word := 0;
      while word < words.Length
        invariant word <= words.Length
        invariant forall l: nat :: Marked(words[..], l) ==> word <= l / 64
      {
        if words[word] != 0 {
          var bit := LowestBit(words[word]);
          if bit >= 64 { NoBitAbove(words[..][word], 64, bit); }
          return Some(word * 64 + bit);
        }
        forall l: nat | l / 64 == word
          ensures !Marked(words[..], l)
        {
          ZeroHasNoBit(l % 64);
        }
        word := word + 1;
      }
    }
    return None;
  }
}
