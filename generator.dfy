/**
  `generate_password`: the alphabet is assembled from the selected classes
  and every character of the password is picked from it.  The random
  source is an oracle: `choices[i]` is the index `random.choice` picks for
  the i-th character.
*/
module Generator {
  import opened Wrappers
  import opened CharClasses

  /** A character belongs to one of the classes whose flag is set. */
  predicate Selected(c: char, useDigits: bool, useSpecial: bool, useUpper: bool, useLower: bool) {
    (useLower && IsLower(c)) || (useUpper && IsUpper(c)) ||
    (useDigits && IsDigit(c)) || (useSpecial && IsPunct(c))
  }

  predicate AnySelected(useDigits: bool, useSpecial: bool, useUpper: bool, useLower: bool) {
    useDigits || useSpecial || useUpper || useLower
  }

  /** The position of a character's class in the alphabet: lowercase, uppercase, digits, punctuation. */
  function ClassRank(c: char): nat {
    if IsLower(c) then 0 else if IsUpper(c) then 1 else if IsDigit(c) then 2 else 3
  }

  /** All characters of `s` have the class at position `rank`. */
  predicate OfRank(s: string, rank: nat) {
    forall c :: c in s ==> ClassRank(c) == rank
  }

  /** Class positions never decrease along `s`. */
  predicate ClassOrdered(s: string) {
    forall i, j :: 0 <= i < j < |s| ==> ClassRank(s[i]) <= ClassRank(s[j])
  }

  lemma ClassOrderedConcat(a: string, b: string, ra: nat, rb: nat)
    requires ClassOrdered(a) && OfRank(b, rb)
    requires forall c :: c in a ==> ClassRank(c) <= ra
    requires ra <= rb
    ensures ClassOrdered(a + b)
  {
    var s := a + b;
    forall i, j | 0 <= i < j < |s|
      ensures ClassRank(s[i]) <= ClassRank(s[j])
    {
      if i < |a| && |a| <= j {
        assert s[i] in a && s[j] == b[j - |a|];
      } else if |a| <= i {
        assert s[i] == b[i - |a|] && s[j] == b[j - |a|];
      }
    }
  }

  /**
    The `characters` string: lowercase, uppercase, digits, punctuation, in
    that order, each class only when its flag is set.  It holds exactly the
    selected characters, each once.
  */
  function Alphabet(useDigits: bool, useSpecial: bool, useUpper: bool, useLower: bool): (a: string)
    ensures forall c :: c in a <==> Selected(c, useDigits, useSpecial, useUpper, useLower)
    ensures NoRepeats(a)
    ensures |a| == (if useLower then 26 else 0) + (if useUpper then 26 else 0)
                 + (if useDigits then 10 else 0) + (if useSpecial then 32 else 0)
    ensures a == [] <==> !AnySelected(useDigits, useSpecial, useUpper, useLower)
    ensures ClassOrdered(a)
  {
    ClassMembers();
    var lower := if useLower then Lowercase else "";
    var upper := if useUpper then Uppercase else "";
    var digits := if useDigits then Digits else "";
    var special := if useSpecial then Punctuation else "";
    NoRepeatsConcat(lower, upper);
    NoRepeatsConcat(lower + upper, digits);
    NoRepeatsConcat(lower + upper + digits, special);
    ClassOrderedConcat(lower, upper, 0, 1);
    ClassOrderedConcat(lower + upper, digits, 1, 2);
    ClassOrderedConcat(lower + upper + digits, special, 2, 3);
    lower + upper + digits + special
  }

  /** How many characters `range(length)` draws: none for a negative length. */
  function Draws(length: int): nat {
    if length < 0 then 0 else length
  }

  /** The oracle supplies one in-range index per character drawn. */
  predicate OracleFits(choices: seq<nat>, size: nat, length: int) {
    |choices| == Draws(length) && forall i :: 0 <= i < |choices| ==> choices[i] < size
  }

  /** The joined characters the oracle picks, one per index. */
  function Pick(alphabet: string, choices: seq<nat>): (r: string)
    requires forall i :: 0 <= i < |choices| ==> choices[i] < |alphabet|
    ensures |r| == |choices|
    ensures forall i :: 0 <= i < |r| ==> r[i] == alphabet[choices[i]]
  {
    if choices == [] then [] else [alphabet[choices[0]]] + Pick(alphabet, choices[1..])
  }

  /**
    `generate_password(length, use_digits, use_special_chars, use_uppercase,
    use_lowercase)`: `None` exactly when no class is selected; otherwise
    `length` characters (none for a length of zero or less), the i-th being
    the alphabet's character at the oracle's i-th index, so that only
    characters of selected classes ever appear.
  */
  function GeneratePassword(length: int, useDigits: bool, useSpecial: bool, useUpper: bool, useLower: bool,
                            choices: seq<nat>): (r: Option<string>)
    requires var n := |Alphabet(useDigits, useSpecial, useUpper, useLower)|; n > 0 ==> OracleFits(choices, n, length)
    ensures r.None? <==> !AnySelected(useDigits, useSpecial, useUpper, useLower)
    ensures r.Some? ==> |r.value| == Draws(length)
    ensures r.Some? ==> forall i :: 0 <= i < |r.value| ==>
              r.value[i] == Alphabet(useDigits, useSpecial, useUpper, useLower)[choices[i]]
    ensures r.Some? ==> forall c :: c in r.value ==> Selected(c, useDigits, useSpecial, useUpper, useLower)
  {
    var characters := Alphabet(useDigits, useSpecial, useUpper, useLower);
    if characters == [] then None else Some(Pick(characters, choices))
  }

  /** The position of a character in a string that contains it. */
  function IndexOf(s: string, c: char): (k: nat)
    requires c in s
    ensures k < |s| && s[k] == c
  {
    if s[0] == c then 0 else 1 + IndexOf(s[1..], c)
  }

  /**
    Conversely, every string of the requested length over the selected
    classes is a password some oracle produces: the model rules out no
    candidate the source could return.
  */
  lemma EveryCandidateReachable(length: int, useDigits: bool, useSpecial: bool, useUpper: bool, useLower: bool,
                                p: string)
    requires AnySelected(useDigits, useSpecial, useUpper, useLower)
    requires |p| == Draws(length)
    requires forall i :: 0 <= i < |p| ==> Selected(p[i], useDigits, useSpecial, useUpper, useLower)
    ensures exists choices: seq<nat> ::
              OracleFits(choices, |Alphabet(useDigits, useSpecial, useUpper, useLower)|, length) &&
              GeneratePassword(length, useDigits, useSpecial, useUpper, useLower, choices) == Some(p)
  {
    var a := Alphabet(useDigits, useSpecial, useUpper, useLower);
    var choices := seq(|p|, i requires 0 <= i < |p| => IndexOf(a, p[i]));
    assert OracleFits(choices, |a|, length);
    var r := GeneratePassword(length, useDigits, useSpecial, useUpper, useLower, choices);
    assert r.value == p;
  }
}
