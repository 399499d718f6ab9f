/**
 * helpers.makeId: an identifier built one character at a time from a fixed
 * alphabet. The random source is replaced by the sequence of alphabet
 * indices it produced (Math.floor(Math.random() * 58) lies in 0..57).
 */
module Helpers {

  /** The alphabet of identifiers and salts: letters without I, O, l, o, then all ten digits. */
  const IdChars: string := "ABCDEFGHJKLMNPQRSTUVWXYZabcdefghijkmnpqrstuvwxyz0123456789"

  /** The alphabet has 58 characters, and the digits 0 and 1 are among them. */
  lemma AlphabetShape()
    ensures |IdChars| == 58
    ensures '0' in IdChars && '1' in IdChars
  {
  }

  predicate InAlphabet(draws: seq<nat>)
  {
    forall k :: 0 <= k < |draws| ==> draws[k] < |IdChars|
  }

  /**
   * makeId(len): the k-th character is the alphabet entry at the k-th draw;
   * a zero or negative length yields the empty string, as the counting loop
   * then never runs.
   */
  method MakeId(len: int, draws: seq<nat>) returns (s: string)
    requires len <= |draws| && InAlphabet(draws)
    ensures |s| == if len < 0 then 0 else len
    ensures forall k :: 0 <= k < |s| ==> s[k] == IdChars[draws[k]]
    ensures forall k :: 0 <= k < |s| ==> s[k] in IdChars
  {
    s := "";
    var i := 0;
    while i < len
      invariant 0 <= i <= (if len < 0 then 0 else len)
      invariant |s| == i
      invariant forall k :: 0 <= k < i ==> s[k] == IdChars[draws[k]]
    {
      s := s + [IdChars[draws[i]]];
      i := i + 1;
    }
  }
}
