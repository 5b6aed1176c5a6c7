/**
  Public room identifiers: six characters, each drawn independently from a
  36-character alphabet of upper-case letters and digits.

  The source draws each character with a pseudo-random number generator; the
  model takes those draws as inputs, one index into the alphabet per character.
 */
module RoomIds {

  /** The characters a room id is made of, in the order the generator indexes them. */
  const Alphabet: string := "ABCDEFGHIJKLMNOPQRSTUVWXYZ0123456789"

  /** Number of characters in a generated room id. */
  const IdLength: nat := 6

  /** A string shaped like a generated room id. */
  predicate IsRoomId(s: string) {
    |s| == IdLength && forall i :: 0 <= i < |s| ==> s[i] in Alphabet
  }

  /** Every draw is a valid index into the alphabet. */
  predicate InAlphabet(draws: seq<nat>) {
    forall i :: 0 <= i < |draws| ==> draws[i] < |Alphabet|
  }

  /** The draws for one call of the generator: one index per character. */
  predicate ValidDraws(draws: seq<nat>) {
    |draws| == IdLength && InAlphabet(draws)
  }

  /** The string spelled by a sequence of alphabet indices, built left to right. */
  function Spell(draws: seq<nat>): (s: string)
    requires InAlphabet(draws)
    ensures |s| == |draws|
    ensures forall i {:trigger s[i]} :: 0 <= i < |draws| ==> s[i] == Alphabet[draws[i]]
  {
    if draws == [] then ""
    else Spell(draws[..|draws| - 1]) + [Alphabet[draws[|draws| - 1]]]
  }

  /** The position of `c` in `s`: its first occurrence. */
  function IndexIn(s: string, c: char): (k: nat)
    requires c in s
    ensures k < |s| && s[k] == c
    ensures forall j :: 0 <= j < k ==> s[j] != c
  {
    if s[0] == c then 0 else 1 + IndexIn(s[1..], c)
  }

  /** The draws that spell a string over the alphabet: the inverse of Spell. */
  function Unspell(s: string): (draws: seq<nat>)
    requires forall i :: 0 <= i < |s| ==> s[i] in Alphabet
    ensures |draws| == |s| && InAlphabet(draws)
  {
    seq(|s|, i requires 0 <= i < |s| => IndexIn(Alphabet, s[i]))
  }

  /** No character occurs twice in the alphabet. */
  predicate Distinct(s: string) {
    forall i, j :: 0 <= i < j < |s| ==> s[i] != s[j]
  }

  lemma AlphabetDistinct()
    ensures Distinct(Alphabet)
  {
    // Letters 'A'..'Z' (codes 65..90) come first, then digits '0'..'9' (codes 48..57).
    assert forall i :: 0 <= i < |Alphabet| ==> Alphabet[i] as int == if i < 26 then 65 + i else 22 + i;
  }

  /** The generator, as written: six draws appended one character at a time. */
  method GenerateRoomId(draws: seq<nat>) returns (id: string)
    requires ValidDraws(draws)
    ensures IsRoomId(id)
    ensures id == Spell(draws)
  {
    id := "";
    for i := 0 to IdLength
      invariant id == Spell(draws[..i])
    {
      assert draws[..i + 1][..i] == draws[..i];
      id := id + [Alphabet[draws[i]]];
    }
    assert draws[..IdLength] == draws;
  }

  /** Every room id can come out of the generator: Unspell finds the draws that produce it. */
  lemma {:induction false} SpellUnspell(s: string)
    requires IsRoomId(s)
    ensures ValidDraws(Unspell(s)) && Spell(Unspell(s)) == s
  {
    var d := Unspell(s);
    assert forall i :: 0 <= i < |s| ==> Spell(d)[i] == s[i];
  }

  /** Different draws give different ids, so the six independent uniform draws
      give a uniform choice among all 36^6 room ids. */
  lemma {:induction false} UnspellSpell(draws: seq<nat>)
    requires ValidDraws(draws)
    ensures Unspell(Spell(draws)) == draws
  {
    AlphabetDistinct();
    var s := Spell(draws);
    forall i | 0 <= i < |draws|
      ensures Unspell(s)[i] == draws[i]
    {
      var k := IndexIn(Alphabet, s[i]);
      assert Alphabet[k] == Alphabet[draws[i]];
    }
  }
}
