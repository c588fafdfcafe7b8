/** The free-block map: 32-bit words in which a set bit marks a free block. */
module Bitmap {
  import opened Options

  // ----- single words, lowest bit first -----

  type Word = w: seq<bool> | |w| == 32 witness seq(32, _ => false)

  function Zero(): Word { seq(32, _ => false) }
  function Ones(): Word { seq(32, _ => true) }
  function And(a: Word, b: Word): Word { seq(32, i requires 0 <= i < 32 => a[i] && b[i]) }
  function Or(a: Word, b: Word): Word { seq(32, i requires 0 <= i < 32 => a[i] || b[i]) }
  function Xor(a: Word, b: Word): Word { seq(32, i requires 0 <= i < 32 => a[i] != b[i]) }

  /** One shifted left by k. */
  function Mask(k: nat): Word
    requires k < 32
  {
    seq(32, i => i == k)
  }

  predicate Bit(w: Word, k: nat)
    requires k < 32
  {
    And(w, Mask(k)) != Zero()
  }

  lemma BitIs(w: Word, k: nat)
    requires k < 32
    ensures Bit(w, k) == w[k]
  {
    assert And(w, Mask(k))[k] == w[k];
    assert !w[k] ==> And(w, Mask(k)) == Zero();
  }

  // ----- all words -----

  predicate At(words: seq<Word>, i: nat)
    requires i < 32 * |words|
  {
    words[i / 32][i % 32]
  }

  function Bits(words: seq<Word>, n: nat): (bits: seq<bool>)
    requires n <= 32 * |words|
    ensures |bits| == n && forall i :: 0 <= i < n ==> bits[i] == At(words, i)
  {
    seq(n, i requires 0 <= i < n => At(words, i))
  }

  lemma Place(ix: nat, offset: nat)
    requires offset < 32
    ensures (32 * ix + offset) / 32 == ix && (32 * ix + offset) % 32 == offset
  {}

  /** Changing one bit of one word changes one bit of the map. */
  lemma WordChanged(words: seq<Word>, words': seq<Word>, ix: nat, offset: nat, value: bool)
    requires ix < |words| && offset < 32 && words' == words[ix := words[ix][offset := value]]
    ensures forall i :: 0 <= i < 32 * |words| ==>
              At(words', i) == if i == 32 * ix + offset then value else At(words, i)
  {
    forall i | 0 <= i < 32 * |words|
      ensures At(words', i) == if i == 32 * ix + offset then value else At(words, i)
    {
      assert i == 32 * (i / 32) + i % 32;
    }
  }

  class Map {
    const nbits: nat
    const words: array<Word>

    /** The bits after the last one are never free. */
    ghost predicate Valid()
      reads words
    {
      words.Length == (nbits + 31) / 32 &&
      forall i :: nbits <= i < 32 * words.Length ==> !At(words[..], i)
    }

    ghost function Contents(): (bits: seq<bool>)
      requires Valid()
      reads words
      ensures |bits| == nbits
    {
      Bits(words[..], nbits)
    }

    constructor (n: nat)
      requires n > 0
      ensures Valid() && nbits == n && fresh(words)
      ensures forall i :: 0 <= i < n ==> Contents()[i]
    {
      var nwords := (n + 31) / 32;
      var all := new Word[nwords](_ => Ones());
      if n != nwords * 32 {
        var ix, overbits := nwords - 1, n - (nwords - 1) * 32;
        while overbits < 32
          invariant n <= 32 * ix + overbits <= 32 * nwords
          invariant forall i :: 0 <= i < 32 * nwords ==> At(all[..], i) == !(n <= i < 32 * ix + overbits)
        {
          ghost var was := all[..];
          Place(ix, overbits);
          assert At(was, 32 * ix + overbits);
          assert Xor(was[ix], Mask(overbits)) == was[ix][overbits := false];
          all[ix] := Xor(all[ix], Mask(overbits));
          WordChanged(was, all[..], ix, overbits, false);
          overbits := overbits + 1;
        }
      }
      nbits, words := n, all;
    }

    /** Takes the free block with the lowest number, if there is a free block. */
    method Alloc() returns (r: Option<nat>)
      requires Valid()
      modifies words
      ensures Valid()
      ensures r.None? ==> Contents() == old(Contents()) && forall i :: 0 <= i < nbits ==> !Contents()[i]
      ensures r.Some? ==>
                r.value < nbits && old(Contents())[r.value] && (forall i :: 0 <= i < r.value ==> !old(Contents())[i]) &&
                Contents() == old(Contents())[r.value := false]
    {
      var ix := 0;
      while ix < words.Length
        invariant 0 <= ix <= words.Length
        invariant words[..] == old(words[..])
        invariant forall i :: 0 <= i < 32 * ix ==> !At(words[..], i)
      {
        if words[ix] != Zero() {
          var offset := FirstBit(words[ix]);
          Take(ix, offset);
          return Some(32 * ix + offset);
        }
        ix := ix + 1;
      }
      return None;
    }

    static method FirstBit(w: Word) returns (offset: nat)
      requires w != Zero()
      ensures offset < 32 && w[offset] && forall j :: 0 <= j < offset ==> !w[j]
    {
      offset := 0;
      while offset < 32 && !Bit(w, offset)
        invariant 0 <= offset <= 32
        invariant forall j :: 0 <= j < offset ==> !w[j]
      {
        BitIs(w, offset);
        offset := offset + 1;
      }
      assert offset == 32 ==> w == Zero();
      BitIs(w, offset);
    }

    method Take(ix: nat, offset: nat)
      requires Valid() && ix < words.Length && offset < 32 && words[ix][offset]
      modifies words
      ensures Valid() && 32 * ix + offset < nbits
      ensures Contents() == old(Contents())[32 * ix + offset := false]
    {
      ghost var was := words[..];
      Place(ix, offset);
      assert At(was, 32 * ix + offset);
      assert Xor(was[ix], Mask(offset)) == was[ix][offset := false];
      words[ix] := Xor(words[ix], Mask(offset));
      WordChanged(was, words[..], ix, offset, false);
    }

    method Test(i: nat) returns (free: bool)
      requires Valid() && i < nbits
      ensures free == Contents()[i]
    {
      BitIs(words[i / 32], i % 32);
      free := And(words[i / 32], Mask(i % 32)) != Zero();
    }

    method Free(i: nat)
      requires Valid() && i < nbits && !Contents()[i]
      modifies words
      ensures Valid() && Contents() == old(Contents())[i := true]
    {
      ghost var was := words[..];
      var ix, offset := i / 32, i % 32;
      assert Or(was[ix], Mask(offset)) == was[ix][offset := true];
      words[ix] := Or(words[ix], Mask(offset));
      WordChanged(was, words[..], ix, offset, true);
    }
  }
}
