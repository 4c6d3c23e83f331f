/**
  The two input helpers, `get_valid_number` and `get_yes_no`.  Each asks
  again until an entry is acceptable; here the user's entries are a finite
  script, read in order, and running out of it ends the loop with `None`.
*/
module Prompts {
  import opened Wrappers

  // ---------------------------------------------------------------------
  // get_valid_number
  // ---------------------------------------------------------------------

  /**
    An entry is `int(input(prompt))`: `None` when `int()` raises
    `ValueError`.  It is accepted when it parsed and is at least `minValue`.
  */
  predicate NumberAccepted(entry: Option<int>, minValue: int) {
    entry.Some? && entry.value >= minValue
  }

  /**
    The position of the first accepted entry: every entry before it is
    rejected, and `None` means every entry is rejected.
  */
  function FirstAccepted(entries: seq<Option<int>>, minValue: int): (r: Option<nat>)
    ensures r.Some? ==> r.value < |entries| && NumberAccepted(entries[r.value], minValue)
    ensures r.Some? ==> forall k :: 0 <= k < r.value ==> !NumberAccepted(entries[k], minValue)
    ensures r.None? ==> forall k :: 0 <= k < |entries| ==> !NumberAccepted(entries[k], minValue)
  {
    if entries == [] then None
    else if NumberAccepted(entries[0], minValue) then Some(0)
    else match FirstAccepted(entries[1..], minValue)
      case None => None
      case Some(i) => Some(i + 1)
  }

  /**
    `get_valid_number(prompt, min_value)`: reads entries until one is
    accepted and returns it, with the number of entries read.
  */
  method GetValidNumber(entries: seq<Option<int>>, minValue: int) returns (value: Option<int>, used: nat)
    ensures used <= |entries|
    ensures value.None? <==> FirstAccepted(entries, minValue).None?
    ensures value.Some? ==> FirstAccepted(entries, minValue) == Some(used - 1)
    ensures value.Some? ==> value.value >= minValue
    ensures value.Some? ==> 1 <= used && entries[used - 1] == value
    ensures forall k :: 0 <= k < used - 1 ==> !NumberAccepted(entries[k], minValue)
    ensures value.None? ==> used == |entries| && forall k :: 0 <= k < |entries| ==> !NumberAccepted(entries[k], minValue)
  {
    value, used := None, 0;
    while used < |entries|
      invariant used <= |entries|
      invariant forall k :: 0 <= k < used ==> !NumberAccepted(entries[k], minValue)
    {
      var entry := entries[used];
      used := used + 1;
      if entry.Some? && entry.value >= minValue {
        value := entry;
        return;
      }
    }
  }

  // ---------------------------------------------------------------------
  // get_yes_no
  // ---------------------------------------------------------------------

  /** The characters Python's `str.strip()` removes (`str.isspace`). */
  predicate IsSpace(c: char) {
    var k := c as int;
    (9 <= k <= 13) || (28 <= k <= 32) || k == 0x85 || k == 0xA0 || k == 0x1680 ||
    (0x2000 <= k <= 0x200A) || k == 0x2028 || k == 0x2029 || k == 0x202F ||
    k == 0x205F || k == 0x3000
  }

  /** How many whitespace characters `s` starts with. */
  function LeadingSpaces(s: string): (k: nat)
    ensures k <= |s|
    ensures forall i :: 0 <= i < k ==> IsSpace(s[i])
    ensures k < |s| ==> !IsSpace(s[k])
  {
    if s != [] && IsSpace(s[0]) then 1 + LeadingSpaces(s[1..]) else 0
  }

  /** Where the whitespace that `s` ends with begins. */
  function TrailingSpaces(s: string): (k: nat)
    ensures k <= |s|
    ensures forall i :: k <= i < |s| ==> IsSpace(s[i])
    ensures 0 < k ==> !IsSpace(s[k - 1])
  {
    if s != [] && IsSpace(s[|s| - 1]) then TrailingSpaces(s[..|s| - 1]) else |s|
  }

  /** `str.strip()`: leading whitespace removed, then trailing whitespace. */
  function Strip(s: string): string {
    var t := s[LeadingSpaces(s)..];
    t[..TrailingSpaces(t)]
  }

  /** `str.lower()` on one character: ASCII capitals become small letters. */
  function LowerChar(c: char): char {
    if 'A' <= c <= 'Z' then (c as int + 32) as char else c
  }

  function Lower(s: string): (r: string)
    ensures |r| == |s|
    ensures forall i :: 0 <= i < |r| ==> !('A' <= r[i] <= 'Z')
    ensures forall i :: 0 <= i < |r| ==> (r[i] == s[i] || r[i] as int == s[i] as int + 32)
    ensures forall i :: 0 <= i < |s| && !('A' <= s[i] <= 'Z') ==> r[i] == s[i]
  {
    seq(|s|, i requires 0 <= i < |s| => LowerChar(s[i]))
  }

  /**
    The decision of `get_yes_no` on one line: strip, lowercase, then `y`
    is yes, `n` is no and anything else is asked again (`None`).  Case
    does not matter: the stripped line must be one of `y`, `Y`, `n`, `N`.
  */
  function Answer(line: string): (r: Option<bool>)
    ensures r == Some(true) <==> Strip(line) == "y" || Strip(line) == "Y"
    ensures r == Some(false) <==> Strip(line) == "n" || Strip(line) == "N"
  {
    LowerSingle(Strip(line), 'y');
    LowerSingle(Strip(line), 'n');
    var choice := Lower(Strip(line));
    if choice == "y" || choice == "n" then Some(choice == "y") else None
  }

  /** `s` is the character `c` surrounded by nothing but whitespace. */
  ghost predicate Padded(s: string, c: char) {
    exists i :: 0 <= i < |s| && s[i] == c && forall j :: 0 <= j < |s| && j != i ==> IsSpace(s[j])
  }

  /**
    `strip()` removes a whitespace prefix and a whitespace suffix and
    nothing else: what remains is a contiguous part of the line that
    neither starts nor ends with whitespace.
  */
  lemma StripTrims(s: string)
    ensures var a, r := LeadingSpaces(s), Strip(s);
              a + |r| <= |s| && r == s[a..a + |r|] &&
              (forall i :: 0 <= i < a ==> IsSpace(s[i])) &&
              (forall i :: a + |r| <= i < |s| ==> IsSpace(s[i])) &&
              (r != [] ==> !IsSpace(r[0]) && !IsSpace(r[|r| - 1]))
  {
    var a := LeadingSpaces(s);
    var t := s[a..];
    var b := TrailingSpaces(t);
    var r := Strip(s);
    assert r == t[..b];
    assert r == s[a..a + b];
    forall i | a + b <= i < |s|
      ensures IsSpace(s[i])
    {
      assert s[i] == t[i - a];
    }
    if r != [] {
      assert r[0] == s[a] && r[b - 1] == t[b - 1];
    }
  }

  /** `strip()` leaves nothing exactly when the line is all whitespace. */
  lemma StripEmpty(s: string)
    ensures Strip(s) == [] <==> forall i :: 0 <= i < |s| ==> IsSpace(s[i])
  {
    StripTrims(s);
    var a := LeadingSpaces(s);
    if forall i :: 0 <= i < |s| ==> IsSpace(s[i]) {
      assert a == |s|;
    }
  }

  /** Stripping leaves exactly one non-space character when it is the only one. */
  lemma StripSingle(s: string, c: char)
    requires !IsSpace(c)
    ensures Strip(s) == [c] <==> Padded(s, c)
  {
    var a := LeadingSpaces(s);
    var t := s[a..];
    var b := TrailingSpaces(t);
    assert Strip(s) == t[..b];
    if Strip(s) == [c] {
      assert b == 1 && t[0] == c;
      forall j | 0 <= j < |s| && j != a
        ensures IsSpace(s[j])
      {
        if j > a {
          assert s[j] == t[j - a];
        }
      }
    }
    if Padded(s, c) {
      var i :| 0 <= i < |s| && s[i] == c && forall j :: 0 <= j < |s| && j != i ==> IsSpace(s[j]);
      assert a == i;
      assert t[0] == c;
      assert forall j :: 1 <= j < |t| ==> IsSpace(t[j]) by {
        forall j | 1 <= j < |t| ensures IsSpace(t[j]) {
          assert t[j] == s[a + j];
        }
      }
      assert b == 1;
    }
  }

  /** Lowercasing gives the small letter `y` or `n` only from that letter or its capital. */
  lemma LowerSingle(s: string, small: char)
    requires small == 'y' || small == 'n'
    ensures Lower(s) == [small] <==> s == [small] || s == [small - 32 as char]
  {
    if Lower(s) == [small] {
      assert LowerChar(s[0]) == Lower(s)[0];
      assert s == [s[0]];
    }
    if s == [small] || s == [small - 32 as char] {
      assert Lower(s) == [LowerChar(s[0])];
    }
  }

  /**
    A line is answered yes exactly when it is `y` or `Y` between any
    amount of whitespace, no exactly when it is `n` or `N` so surrounded,
    and otherwise it is asked again.
  */
  lemma AnswerMeaning(line: string)
    ensures Answer(line) == Some(true) <==> Padded(line, 'y') || Padded(line, 'Y')
    ensures Answer(line) == Some(false) <==> Padded(line, 'n') || Padded(line, 'N')
  {
    LowerSingle(Strip(line), 'y');
    LowerSingle(Strip(line), 'n');
    StripSingle(line, 'y');
    StripSingle(line, 'Y');
    StripSingle(line, 'n');
    StripSingle(line, 'N');
  }

  /** A capital `Y` with spaces around it is a yes. */
  lemma SpacedCapitalIsYes()
    ensures Answer(" Y ") == Some(true)
  {
    var line := " Y ";
    assert line[1] == 'Y' && IsSpace(line[0]) && IsSpace(line[2]);
    assert Padded(line, 'Y');
    AnswerMeaning(line);
  }

  /**
    `get_yes_no(prompt)`: reads lines until one is a yes or a no and
    returns it, with the number of lines read.
  */
  method GetYesNo(lines: seq<string>) returns (answer: Option<bool>, used: nat)
    ensures used <= |lines|
    ensures answer.Some? ==> 1 <= used && Answer(lines[used - 1]) == answer
    ensures forall k :: 0 <= k < used - 1 ==> Answer(lines[k]).None?
    ensures answer.None? ==> used == |lines| && forall k :: 0 <= k < |lines| ==> Answer(lines[k]).None?
  {
    answer, used := None, 0;
    while used < |lines|
      invariant used <= |lines|
      invariant forall k :: 0 <= k < used ==> Answer(lines[k]).None?
    {
      var decision := Answer(lines[used]);
      used := used + 1;
      if decision.Some? {
        answer := decision;
        return;
      }
    }
  }
}
