/**
  The four ASCII character classes of Python's `string` module that a
  password is drawn from, the predicates that say which class a character
  belongs to, and the facts that tie the two together.
*/
module CharClasses {

  /** `string.ascii_lowercase` */
  const Lowercase: string := "abcdefghijklmnopqrstuvwxyz"
  /** `string.ascii_uppercase` */
  const Uppercase: string := "ABCDEFGHIJKLMNOPQRSTUVWXYZ"
  /** `string.digits` */
  const Digits: string := "0123456789"
  /** `string.punctuation` */
  const Punctuation: string := "!\"#$%&'()*+,-./:;<=>?@[\\]^_`{|}~"

  predicate IsLower(c: char) { 'a' <= c <= 'z' }
  predicate IsUpper(c: char) { 'A' <= c <= 'Z' }
  predicate IsDigit(c: char) { '0' <= c <= '9' }

  /** Printable ASCII, not a space, not a letter and not a digit. */
  predicate IsPunct(c: char) {
    '!' <= c <= '~' && !IsLower(c) && !IsUpper(c) && !IsDigit(c)
  }

  /** No character occurs twice. */
  predicate NoRepeats(s: string) {
    forall i, j :: 0 <= i < j < |s| ==> s[i] != s[j]
  }

  /** The characters with codes `lo` to `hi`, in ascending order. */
  function Span(lo: int, hi: int): (r: string)
    requires 0 <= lo && hi < 128
    ensures |r| == if hi < lo then 0 else hi - lo + 1
    ensures forall i :: 0 <= i < |r| ==> r[i] as int == lo + i
    decreases hi - lo
  {
    if hi < lo then [] else [lo as char] + Span(lo + 1, hi)
  }

  lemma SpanMembers(lo: int, hi: int)
    requires 0 <= lo && hi < 128
    ensures forall c :: c in Span(lo, hi) <==> lo <= c as int <= hi
    ensures NoRepeats(Span(lo, hi))
  {
    var r := Span(lo, hi);
    forall c | lo <= c as int <= hi
      ensures c in r
    {
      assert r[c as int - lo] as int == c as int;
    }
  }

  /** Each class string is the run of codes its predicate describes. */
  lemma LowercaseIsSpan() ensures Lowercase == Span(97, 122) {}
  lemma UppercaseIsSpan() ensures Uppercase == Span(65, 90) {}
  lemma DigitsIsSpan() ensures Digits == Span(48, 57) {}
  lemma PunctuationPart1() ensures Punctuation[..15] == Span(33, 47) {}
  lemma PunctuationPart2() ensures Punctuation[15..22] == Span(58, 64) {}
  lemma PunctuationPart3() ensures Punctuation[22..28] == Span(91, 96) {}
  lemma PunctuationPart4() ensures Punctuation[28..] == Span(123, 126) {}

  lemma PunctuationIsSpans()
    ensures Punctuation == Span(33, 47) + Span(58, 64) + Span(91, 96) + Span(123, 126)
  {
    PunctuationPart1();
    PunctuationPart2();
    PunctuationPart3();
    PunctuationPart4();
    assert Punctuation == Punctuation[..15] + Punctuation[15..22] + Punctuation[22..28] + Punctuation[28..];
  }

  /** Concatenating two repeat-free strings with no common character gives a repeat-free string. */
  lemma NoRepeatsConcat(a: string, b: string)
    requires NoRepeats(a) && NoRepeats(b)
    requires forall c :: c in a ==> c !in b
    ensures NoRepeats(a + b)
  {
    var s := a + b;
    forall i, j | 0 <= i < j < |s|
      ensures s[i] != s[j]
    {
      if i < |a| && |a| <= j {
        assert s[i] in a && s[j] == b[j - |a|];
      }
    }
  }

  /**
    Membership in each class string is exactly its predicate, the four
    strings have 26, 26, 10 and 32 characters and none repeats a character.
  */
  lemma ClassMembers()
    ensures |Lowercase| == 26 && |Uppercase| == 26 && |Digits| == 10 && |Punctuation| == 32
    ensures forall c :: c in Lowercase <==> IsLower(c)
    ensures forall c :: c in Uppercase <==> IsUpper(c)
    ensures forall c :: c in Digits <==> IsDigit(c)
    ensures forall c :: c in Punctuation <==> IsPunct(c)
    ensures NoRepeats(Lowercase) && NoRepeats(Uppercase) && NoRepeats(Digits) && NoRepeats(Punctuation)
  {
    LowercaseIsSpan();
    UppercaseIsSpan();
    DigitsIsSpan();
    PunctuationIsSpans();
    SpanMembers(97, 122);
    SpanMembers(65, 90);
    SpanMembers(48, 57);
    SpanMembers(33, 47);
    SpanMembers(58, 64);
    SpanMembers(91, 96);
    SpanMembers(123, 126);
    var p1, p2, p3, p4 := Span(33, 47), Span(58, 64), Span(91, 96), Span(123, 126);
    NoRepeatsConcat(p1, p2);
    NoRepeatsConcat(p1 + p2, p3);
    NoRepeatsConcat(p1 + p2 + p3, p4);
  }
}
