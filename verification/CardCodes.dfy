/** Card codes: normalization, display format, import validation. */
module CardCodes {
  const CROCKFORD := "0123456789ABCDEFGHJKMNPQRSTVWXYZ"
  const NORMALIZED_LENGTH := 18

  datatype Validation = Valid(normalized: string) | BadLength | BadCharacter

  // ----- Go strings as sequences of runes

  /** Length in bytes of a rune in UTF-8. */
  function RuneBytes(c: char): nat {
    if c < '\U{80}' then 1 else if c < '\U{800}' then 2 else if c < '\U{10000}' then 3 else 4
  }

  /** len(s), which counts bytes. */
  function ByteLength(s: string): nat {
    if s == "" then 0 else RuneBytes(s[0]) + ByteLength(s[1..])
  }

  /**
   * Upper case of one rune.  Only two runes beyond ASCII have an ASCII upper
   * case; the remaining ones never reach a valid code and are left alone.
   */
  function UpperRune(c: char): char {
    if 'a' <= c <= 'z' then (c as int - 32) as char
    else if c == '\U{131}' then 'I'
    else if c == '\U{17f}' then 'S'
    else c
  }

  function ToUpper(s: string): (r: string)
    ensures |r| == |s|
  {
    if s == "" then "" else [UpperRune(s[0])] + ToUpper(s[1..])
  }

  function Strip(s: string, c: char): string {
    if s == "" then "" else (if s[0] == c then "" else [s[0]]) + Strip(s[1..], c)
  }

  // ----- codes

  function NormalizeCode(code: string): string {
    Strip(Strip(ToUpper(code), '-'), ' ')
  }

  /** crockfordDecode[b] >= 0: the alphabet, or a lower-case letter of it. */
  predicate Decodes(c: char) {
    InAlphabet(c) || ('a' <= c <= 'z' && InAlphabet(UpperRune(c)))
  }

  /** Digits and capitals without I, L, O and U. */
  predicate InAlphabet(c: char) {
    '0' <= c <= '9' || ('A' <= c <= 'Z' && c != 'I' && c != 'L' && c != 'O' && c != 'U')
  }

  /** Where a character of the alphabet stands in the listing. */
  function AlphabetIndex(c: char): int {
    if c <= '9' then c as int - 48 else if c <= 'H' then c as int - 55 else if c <= 'K' then c as int - 56
    else if c <= 'N' then c as int - 57 else if c <= 'T' then c as int - 58 else c as int - 59
  }

  lemma ListedInAlphabet(i: nat)
    requires i < |CROCKFORD|
    ensures InAlphabet(CROCKFORD[i])
  {
  }

  lemma AlphabetListed(c: char)
    ensures InAlphabet(c) <==> c in CROCKFORD
  {
    if InAlphabet(c) {
      assert CROCKFORD[AlphabetIndex(c)] == c;
    }
    if c in CROCKFORD {
      var i :| 0 <= i < |CROCKFORD| && CROCKFORD[i] == c;
      ListedInAlphabet(i);
    }
  }

  function ValidateImportCardCode(code: string): Validation {
    var n := NormalizeCode(code);
    if ByteLength(n) != NORMALIZED_LENGTH then BadLength
    else if forall i :: 0 <= i < |n| ==> Decodes(n[i]) then Valid(n)
    else BadCharacter
  }

  predicate IsAscii(s: string) {
    forall i :: 0 <= i < |s| ==> s[i] < '\U{80}'
  }

  /** Three groups of six, with dashes between. */
  function Dashed(n: string): string
    requires |n| == NORMALIZED_LENGTH
  {
    n[0..6] + ("-" + (n[6..12] + ("-" + n[12..18])))
  }

  /** The display form; its byte slices are rune slices because the code is ASCII. */
  function FormatCardCode(code: string): string
    requires IsAscii(NormalizeCode(code))
  {
    var n := NormalizeCode(code);
    AsciiLength(n);
    if ByteLength(n) != NORMALIZED_LENGTH then n
    else Dashed(n)
  }

  lemma {:induction false} AsciiLength(s: string)
    requires IsAscii(s)
    ensures ByteLength(s) == |s|
  {
    if s != "" {
      AsciiLength(s[1..]);
    }
  }

  // ----- properties

  /** A code that normalization leaves alone. */
  predicate IsCanonical(n: string) {
    |n| == NORMALIZED_LENGTH && forall i :: 0 <= i < |n| ==> InAlphabet(n[i])
  }

  lemma {:induction false} StripNothing(s: string, c: char)
    requires c !in s
    ensures Strip(s, c) == s
  {
    if s != "" {
      StripNothing(s[1..], c);
    }
  }

  lemma {:induction false} StripAppend(s: string, t: string, c: char)
    ensures Strip(s + t, c) == Strip(s, c) + Strip(t, c)
  {
    if s == "" {
      assert s + t == t;
    } else {
      assert (s + t)[1..] == s[1..] + t;
      StripAppend(s[1..], t, c);
    }
  }

  lemma {:induction false} StripRemoves(s: string, c: char)
    ensures c !in Strip(s, c)
    ensures forall x :: x in Strip(s, c) ==> x in s
  {
    if s != "" {
      StripRemoves(s[1..], c);
    }
  }

  lemma {:induction false} UpperNothing(s: string)
    requires forall x :: x in s ==> UpperRune(x) == x
    ensures ToUpper(s) == s
  {
    if s != "" {
      UpperNothing(s[1..]);
    }
  }

  lemma {:induction false} UpperIsUpper(s: string)
    ensures forall x :: x in ToUpper(s) ==> !('a' <= x <= 'z')
  {
    if s != "" {
      UpperIsUpper(s[1..]);
    }
  }

  lemma AlphabetIsUpper(c: char)
    requires InAlphabet(c)
    ensures c != '-' && c != ' ' && c < '\U{80}' && UpperRune(c) == c
  {
  }

  lemma CanonicalIsFixed(n: string)
    requires forall i :: 0 <= i < |n| ==> InAlphabet(n[i])
    ensures NormalizeCode(n) == n && IsAscii(n)
  {
    forall i | 0 <= i < |n|
      ensures n[i] != '-' && n[i] != ' ' && n[i] < '\U{80}' && UpperRune(n[i]) == n[i]
    {
      AlphabetIsUpper(n[i]);
    }
    UpperNothing(n);
    StripNothing(n, '-');
    StripNothing(n, ' ');
  }

  /** Validation accepts exactly the spellings of canonical codes, and returns that code. */
  lemma ValidIffCanonical(code: string)
    ensures ValidateImportCardCode(code).Valid? <==> IsCanonical(NormalizeCode(code))
    ensures ValidateImportCardCode(code).Valid? ==> ValidateImportCardCode(code).normalized == NormalizeCode(code)
  {
    var n := NormalizeCode(code);
    UpperIsUpper(code);
    StripRemoves(ToUpper(code), '-');
    StripRemoves(Strip(ToUpper(code), '-'), ' ');
    if forall i :: 0 <= i < |n| ==> Decodes(n[i]) {
      forall i | 0 <= i < |n|
        ensures InAlphabet(n[i]) && n[i] < '\U{80}'
      {
        assert n[i] in n && Decodes(n[i]);
        AlphabetIsUpper(n[i]);
      }
      AsciiLength(n);
    }
    if IsCanonical(n) {
      CanonicalIsFixed(n);
      AsciiLength(n);
    }
  }

  lemma CanonicalFormat(n: string)
    requires IsCanonical(n)
    ensures IsAscii(NormalizeCode(n)) && FormatCardCode(n) == Dashed(n)
  {
    CanonicalIsFixed(n);
    AsciiLength(n);
  }

  lemma StripLeading(rest: string, c: char)
    ensures Strip([c] + rest, c) == Strip(rest, c)
  {
    assert ([c] + rest)[1..] == rest;
  }

  lemma StripOneDash(a: string, rest: string)
    requires '-' !in a
    ensures Strip(a + ("-" + rest), '-') == a + Strip(rest, '-')
  {
    var t := "-" + rest;
    StripLeading(rest, '-');
    assert t == ['-'] + rest;
    StripAppend(a, t, '-');
    StripNothing(a, '-');
  }

  lemma SliceRunes(n: string, lo: nat, hi: nat)
    requires lo <= hi <= |n|
    ensures forall x :: x in n[lo..hi] ==> x in n
  {
  }

  lemma StripTwoDashes(a: string, b: string, c: string)
    requires '-' !in a && '-' !in b && '-' !in c
    ensures Strip(a + ("-" + (b + ("-" + c))), '-') == a + (b + c)
  {
    StripOneDash(a, b + ("-" + c));
    StripOneDash(b, c);
    StripNothing(c, '-');
  }

  lemma NoDashInSlice(n: string, lo: nat, hi: nat)
    requires lo <= hi <= |n| && '-' !in n
    ensures '-' !in n[lo..hi]
  {
    SliceRunes(n, lo, hi);
  }

  lemma DashedRunes(n: string)
    requires |n| == NORMALIZED_LENGTH && forall x :: x in n ==> UpperRune(x) == x
    ensures forall x :: x in Dashed(n) ==> UpperRune(x) == x
  {
    SliceRunes(n, 0, 6);
    SliceRunes(n, 6, 12);
    SliceRunes(n, 12, 18);
  }

  lemma UndoDashes(n: string)
    requires |n| == NORMALIZED_LENGTH
    requires forall x :: x in n ==> x != '-' && x != ' ' && UpperRune(x) == x
    ensures NormalizeCode(Dashed(n)) == n
  {
    DashedRunes(n);
    UpperNothing(Dashed(n));
    NoDashInSlice(n, 0, 6);
    NoDashInSlice(n, 6, 12);
    NoDashInSlice(n, 12, 18);
    StripTwoDashes(n[0..6], n[6..12], n[12..18]);
    assert n[0..6] + (n[6..12] + n[12..18]) == n;
    StripNothing(n, ' ');
  }

  lemma CanonicalRunes(n: string)
    requires IsCanonical(n)
    ensures forall x :: x in n ==> x != '-' && x != ' ' && UpperRune(x) == x
  {
    forall i | 0 <= i < |n|
      ensures n[i] != '-' && n[i] != ' ' && UpperRune(n[i]) == n[i]
    {
      AlphabetIsUpper(n[i]);
    }
  }

  /** Round trip: the display form normalizes back to the code and passes validation. */
  lemma FormatRoundTrip(n: string)
    requires IsCanonical(n)
    ensures IsAscii(NormalizeCode(n))
    ensures NormalizeCode(FormatCardCode(n)) == n
    ensures ValidateImportCardCode(FormatCardCode(n)) == Valid(n)
    ensures FormatCardCode(FormatCardCode(n)) == FormatCardCode(n)
  {
    CanonicalFormat(n);
    CanonicalRunes(n);
    UndoDashes(n);
    ValidIffCanonical(Dashed(n));
    CanonicalIsFixed(n);
  }

  /** Two valid codes are displayed, and hence stored, alike only if they are the same code. */
  lemma FormatInjective(m: string, n: string)
    requires IsCanonical(m) && IsCanonical(n)
    ensures IsAscii(NormalizeCode(m)) && IsAscii(NormalizeCode(n))
    ensures FormatCardCode(m) == FormatCardCode(n) <==> m == n
  {
    FormatRoundTrip(m);
    FormatRoundTrip(n);
  }

  // ----- codes as they are typed and shown

  /** Typed for a code character: itself, its lower-case letter, or the long s for an S. */
  predicate TypedFor(typed: char, c: char) {
    typed == c || ('A' <= c <= 'Z' && typed as int == c as int + 32) || (typed == '\U{17f}' && c == 'S')
  }

  /** The text spells the code, with any number of blanks and dashes anywhere. */
  predicate Spells(text: string, code: string)
    decreases |text|
  {
    if text == "" then code == ""
    else if text[0] == ' ' || text[0] == '-' then Spells(text[1..], code)
    else code != "" && TypedFor(text[0], code[0]) && Spells(text[1..], code[1..])
  }

  lemma TypedIsUpper(typed: char, c: char)
    requires InAlphabet(c) && typed != ' ' && typed != '-'
    ensures TypedFor(typed, c) <==> UpperRune(typed) == c
  {
  }

  lemma {:induction false} NormalizeFirst(text: string)
    requires text != ""
    ensures NormalizeCode(text) ==
      (if text[0] == ' ' || text[0] == '-' then "" else [UpperRune(text[0])]) + NormalizeCode(text[1..])
  {
    var head, tail := [UpperRune(text[0])], ToUpper(text[1..]);
    assert ToUpper(text) == head + tail;
    StripAppend(head, tail, '-');
    StripAppend(Strip(head, '-'), Strip(tail, '-'), ' ');
    assert head[1..] == "";
    assert UpperRune(text[0]) == '-' <==> text[0] == '-';
    assert UpperRune(text[0]) == ' ' <==> text[0] == ' ';
  }

  lemma {:induction false} SpellsIff(text: string, code: string)
    requires forall i :: 0 <= i < |code| ==> InAlphabet(code[i])
    ensures Spells(text, code) <==> NormalizeCode(text) == code
    decreases |text|
  {
    if text != "" {
      NormalizeFirst(text);
      if text[0] == ' ' || text[0] == '-' {
        SpellsIff(text[1..], code);
      } else if code != "" {
        TypedIsUpper(text[0], code[0]);
        SpellsIff(text[1..], code[1..]);
        assert code == [code[0]] + code[1..];
      }
    }
  }

  /** Exactly the spellings of eighteen characters of the alphabet are accepted, as those eighteen. */
  lemma AcceptedIffSpelled(text: string, code: string)
    ensures ValidateImportCardCode(text) == Valid(code) <==>
      && |code| == 18 && (forall i :: 0 <= i < |code| ==> code[i] in "0123456789ABCDEFGHJKMNPQRSTVWXYZ")
      && Spells(text, code)
  {
    ValidIffCanonical(text);
    forall i | 0 <= i < |code|
      ensures InAlphabet(code[i]) <==> code[i] in "0123456789ABCDEFGHJKMNPQRSTVWXYZ"
    {
      AlphabetListed(code[i]);
    }
    if IsCanonical(code) {
      SpellsIff(text, code);
    }
  }

  /** Of the twenty characters shown, the seventh and the fourteenth are dashes, and the rest is the code. */
  lemma ShownWithDashes(code: string)
    requires IsCanonical(code)
    ensures IsAscii(NormalizeCode(code))
    ensures var shown := FormatCardCode(code);
      && |shown| == 20 && shown[6] == '-' && shown[13] == '-'
      && shown[..6] + shown[7..13] + shown[14..] == code
  {
    CanonicalFormat(code);
    var shown := Dashed(code);
    assert shown[..6] == code[0..6] && shown[7..13] == code[6..12] && shown[14..] == code[12..18];
  }

  /** How many characters of the text are neither blanks nor dashes. */
  function Written(text: string): set<int> {
    set i | 0 <= i < |text| && text[i] != ' ' && text[i] != '-'
  }

  function Moved(positions: set<int>): set<int> {
    set i | i in positions :: i + 1
  }

  lemma SomeMember<T>(s: set<T>) returns (x: T)
    requires s != {}
    ensures x in s
  {
    x :| x in s;
  }

  lemma {:induction false} MovedSize(positions: set<int>)
    ensures |Moved(positions)| == |positions|
    decreases |positions|
  {
    if positions == {} {
      assert Moved(positions) == {};
    } else {
      var x := SomeMember(positions);
      var rest := positions - {x};
      MovedSize(rest);
      assert Moved(positions) == Moved(rest) + {x + 1} by {
        assert forall i :: i in positions <==> i in rest || i == x;
      }
      assert x + 1 !in Moved(rest);
    }
  }

  lemma WrittenFirst(text: string)
    requires text != ""
    ensures |Written(text)| == |Written(text[1..])| + if text[0] == ' ' || text[0] == '-' then 0 else 1
  {
    var rest := Written(text[1..]);
    var first := if text[0] == ' ' || text[0] == '-' then {} else {0};
    MovedSize(rest);
    forall i
      ensures i in Written(text) <==> i in first || i in Moved(rest)
    {
      if 0 < i < |text| {
        assert text[i] == text[1..][i - 1];
        assert i in Moved(rest) <==> i - 1 in rest;
      }
    }
    assert Written(text) == first + Moved(rest) && 0 !in Moved(rest);
  }

  lemma {:induction false} NormalizedLength(text: string)
    ensures |NormalizeCode(text)| == |Written(text)|
    decreases |text|
  {
    if text == "" {
      assert Written(text) == {};
    } else {
      NormalizeFirst(text);
      NormalizedLength(text[1..]);
      WrittenFirst(text);
    }
  }

  lemma {:induction false} UpperKeepsAscii(text: string)
    requires IsAscii(text)
    ensures IsAscii(NormalizeCode(text))
    decreases |text|
  {
    if text != "" {
      NormalizeFirst(text);
      UpperKeepsAscii(text[1..]);
    }
  }

  /** The reason given for an ASCII text: the length if it does not hold eighteen characters, otherwise a character. */
  lemma RejectedBecause(text: string)
    requires IsAscii(text)
    ensures ValidateImportCardCode(text) == BadLength <==> |Written(text)| != 18
  {
    NormalizedLength(text);
    UpperKeepsAscii(text);
    AsciiLength(NormalizeCode(text));
  }
}
