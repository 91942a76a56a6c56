/** `generate_random_id`: `length` characters drawn from the 62-letter
    alphabet `ascii_letters + digits`. The random generator itself is not
    modelled; its draws are given as the indices it picked. */
module RandomId {
  import opened Text

  /** The `k`-th letter of `a..z`, `A..Z`, `0..9` in that order. */
  function Letter(k: nat): char
    requires k < 62
  {
    if k < 26 then (0x61 + k) as char
    else if k < 52 then (0x41 + k - 26) as char
    else (0x30 + k - 52) as char
  }

  /** `string.ascii_letters + string.digits`. */
  function Alphabet(): (r: string)
    ensures |r| == 62 && forall k | 0 <= k < 62 :: r[k] == Letter(k)
  {
    seq(62, k requires 0 <= k < 62 => Letter(k))
  }

  /** The default `length` of a dataset identifier. */
  const IdLength: nat := 32

  /** What `generate_random_id()` can return: `IdLength` letters and digits. */
  predicate IsRandomId(id: string) {
    |id| == IdLength && forall i | 0 <= i < |id| :: IsAsciiAlnum(id[i])
  }

  /** The alphabet lists 62 distinct ASCII letters and digits. */
  lemma AlphabetShape()
    ensures |Alphabet()| == 62
    ensures Alphabet()[..26] == "abcdefghijklmnopqrstuvwxyz"
    ensures Alphabet()[26..52] == "ABCDEFGHIJKLMNOPQRSTUVWXYZ"
    ensures Alphabet()[52..] == "0123456789"
    ensures forall i | 0 <= i < |Alphabet()| :: IsAsciiAlnum(Alphabet()[i])
    ensures forall i, j | 0 <= i < j < |Alphabet()| :: Alphabet()[i] != Alphabet()[j]
  {
  }

  predicate ValidDraws(picks: seq<nat>) {
    forall i | 0 <= i < |picks| :: picks[i] < 62
  }

  /** `''.join(random.choices(alphabet, k=len(picks)))` for the given picks. */
  function GenerateRandomId(picks: seq<nat>): (id: string)
    requires ValidDraws(picks)
    ensures |id| == |picks|
    ensures forall i | 0 <= i < |id| :: IsAsciiAlnum(id[i])
  {
    AlphabetShape();
    seq(|picks|, i requires 0 <= i < |picks| => Alphabet()[picks[i]])
  }

  /** The default call draws `IdLength` times and returns an identifier of
      that shape. */
  lemma DefaultRandomId(picks: seq<nat>)
    requires ValidDraws(picks) && |picks| == IdLength
    ensures IsRandomId(GenerateRandomId(picks))
  {
  }

    /** Different draws give different identifiers, and the identifier
      determines the draws: the alphabet has no repeated letter. */
  lemma RandomIdInjective(p: seq<nat>, q: seq<nat>)
    requires ValidDraws(p) && ValidDraws(q)
    requires GenerateRandomId(p) == GenerateRandomId(q)
    ensures p == q
  {
    AlphabetShape();
    assert |p| == |q|;
    forall i | 0 <= i < |p| ensures p[i] == q[i] {
      assert GenerateRandomId(p)[i] == Alphabet()[p[i]];
      assert GenerateRandomId(q)[i] == Alphabet()[q[i]];
    }
  }

  /** Every string of letters and digits is the identifier of some draws. */
  lemma RandomIdSurjective(id: string)
    requires forall i | 0 <= i < |id| :: IsAsciiAlnum(id[i])
    ensures exists picks: seq<nat> :: ValidDraws(picks) && GenerateRandomId(picks) == id
  {
    var picks := seq(|id|, i requires 0 <= i < |id| => LetterIndex(id[i]));
    assert GenerateRandomId(picks) == id;
  }

  /** The index of a letter or digit in the alphabet. */
  function LetterIndex(c: char): (k: nat)
    requires IsAsciiAlnum(c)
    ensures k < 62 && Alphabet()[k] == c
  {
    if IsAsciiLower(c) then c as int - 0x61
    else if IsAsciiUpper(c) then c as int - 0x41 + 26
    else c as int - 0x30 + 52
  }
}
