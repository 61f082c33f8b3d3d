/** How the import reads a CSV field: white space around it, column titles, and the note. */
module ImportText {

  predicate IsSpace(c: char) {
    c in {'\t', '\n', '\U{b}', '\U{c}', '\r', ' ', '\U{85}', '\U{a0}', '\U{1680}', '\U{2028}', '\U{2029}',
          '\U{202f}', '\U{205f}', '\U{3000}'} || '\U{2000}' <= c <= '\U{200a}'
  }

  function TrimLeft(s: string): string {
    if s != "" && IsSpace(s[0]) then TrimLeft(s[1..]) else s
  }

  function TrimRight(s: string): string {
    if s != "" && IsSpace(s[|s| - 1]) then TrimRight(s[..|s| - 1]) else s
  }

  function TrimSpace(s: string): string {
    TrimRight(TrimLeft(s))
  }

  /** Lower case of one rune, exact wherever the result is ASCII. */
  function LowerRune(c: char): char {
    if 'A' <= c <= 'Z' then (c as int + 32) as char
    else if c == '\U{130}' then 'i'
    else if c == '\U{212a}' then 'k'
    else c
  }

  function ToLower(s: string): (r: string)
    ensures |r| == |s| && forall i :: 0 <= i < |s| ==> r[i] == LowerRune(s[i])
  {
    if s == "" then "" else [LowerRune(s[0])] + ToLower(s[1..])
  }

  /** The column titles skipped by the import: "code" in any case, or the Chinese title anywhere. */
  predicate IsHeader(code: string) {
    var lower := ToLower(code);
    lower == "code" || exists i :: 0 <= i < |lower| - 1 && lower[i] == '\U{5361}' && lower[i + 1] == '\U{5bc6}'
  }

  function NoteOf(record: seq<string>): string {
    if |record| > 1 && TrimSpace(record[1]) != "" then TrimSpace(record[1]) else "imported"
  }

  // ----- what these mean

  /** White space by code point: the ASCII controls and blank, next line, and the Unicode separators. */
  lemma SpaceCodes(c: char)
    ensures var n := c as int;
      IsSpace(c) <==>
        || 9 <= n <= 13 || n == 32 || n == 0x85 || n == 0xa0 || n == 0x1680 || 0x2000 <= n <= 0x200a
        || n == 0x2028 || n == 0x2029 || n == 0x202f || n == 0x205f || n == 0x3000
  {
  }

  /** The slice of s outside which there is only white space, and whose ends are none. */
  predicate IsTrimOf(text: string, s: string) {
    exists lo, hi :: 0 <= lo <= hi <= |s| && IsSliceTrim(text, s, lo, hi)
  }

  predicate IsSliceTrim(text: string, s: string, lo: int, hi: int)
    requires 0 <= lo <= hi <= |s|
  {
    && text == s[lo..hi]
    && (forall i :: 0 <= i < lo ==> IsSpace(s[i]))
    && (forall i :: hi <= i < |s| ==> IsSpace(s[i]))
    && (lo < hi ==> !IsSpace(s[lo]) && !IsSpace(s[hi - 1]))
  }

  lemma {:induction false} TrimLeftAt(s: string) returns (lo: nat)
    ensures lo <= |s| && TrimLeft(s) == s[lo..]
    ensures (forall i :: 0 <= i < lo ==> IsSpace(s[i])) && (lo < |s| ==> !IsSpace(s[lo]))
  {
    lo := 0;
    if s != "" && IsSpace(s[0]) {
      var rest := TrimLeftAt(s[1..]);
      lo := rest + 1;
      assert forall i :: 1 <= i < |s| ==> s[i] == s[1..][i - 1];
    }
  }

  lemma {:induction false} TrimRightAt(s: string) returns (hi: nat)
    ensures hi <= |s| && TrimRight(s) == s[..hi]
    ensures (forall i :: hi <= i < |s| ==> IsSpace(s[i])) && (hi > 0 ==> !IsSpace(s[hi - 1]))
  {
    hi := |s|;
    if s != "" && IsSpace(s[|s| - 1]) {
      hi := TrimRightAt(s[..|s| - 1]);
    }
  }

  lemma TrimIsTrim(s: string)
    ensures IsTrimOf(TrimSpace(s), s)
  {
    var lo := TrimLeftAt(s);
    var rest := s[lo..];
    var hi := TrimRightAt(rest);
    assert forall i :: 0 <= i < |rest| ==> rest[i] == s[lo + i];
    assert rest[..hi] == s[lo..lo + hi];
    forall i | lo + hi <= i < |s|
      ensures IsSpace(s[i])
    {
      assert s[i] == rest[i - lo];
    }
    assert IsSliceTrim(TrimSpace(s), s, lo, lo + hi);
  }

  /** There is only one such slice. */
  lemma TrimUnique(t: string, u: string, s: string)
    requires IsTrimOf(t, s) && IsTrimOf(u, s)
    ensures t == u
  {
    var a, b :| 0 <= a <= b <= |s| && IsSliceTrim(t, s, a, b);
    var c, d :| 0 <= c <= d <= |s| && IsSliceTrim(u, s, c, d);
    if a < b && c < d {
      assert a == c && b == d;
    }
  }

  /** "code" letter by letter in either case, or the two characters of the Chinese title side by side. */
  predicate ReadsTitle(code: string) {
    || (&& |code| == 4 && code[0] in {'c', 'C'} && code[1] in {'o', 'O'}
        && code[2] in {'d', 'D'} && code[3] in {'e', 'E'})
    || exists i :: 0 <= i < |code| - 1 && code[i] == '\U{5361}' && code[i + 1] == '\U{5bc6}'
  }

  lemma LowerLetter(c: char, letter: char)
    requires letter in {'c', 'o', 'd', 'e'}
    ensures LowerRune(c) == letter <==> c == letter || c as int == letter as int - 32
  {
  }

  lemma LowerChinese(c: char)
    ensures LowerRune(c) == '\U{5361}' <==> c == '\U{5361}'
    ensures LowerRune(c) == '\U{5bc6}' <==> c == '\U{5bc6}'
  {
  }

  lemma HeaderIsTitle(code: string)
    ensures IsHeader(code) <==> ReadsTitle(code)
  {
    var lower := ToLower(code);
    if |code| == 4 {
      LowerLetter(code[0], 'c');
      LowerLetter(code[1], 'o');
      LowerLetter(code[2], 'd');
      LowerLetter(code[3], 'e');
      assert lower == "code" <==> lower[0] == 'c' && lower[1] == 'o' && lower[2] == 'd' && lower[3] == 'e';
    }
    forall i | 0 <= i < |code|
      ensures lower[i] == '\U{5361}' <==> code[i] == '\U{5361}'
      ensures lower[i] == '\U{5bc6}' <==> code[i] == '\U{5bc6}'
    {
      LowerChinese(code[i]);
    }
  }

  /** The second field without the white space around it if anything is left of it, otherwise "imported". */
  predicate IsNoteOf(note: string, record: seq<string>) {
    if |record| > 1 && exists i :: 0 <= i < |record[1]| && !IsSpace(record[1][i]) then IsTrimOf(note, record[1])
    else note == "imported"
  }

  lemma NoteIsNote(record: seq<string>)
    ensures IsNoteOf(NoteOf(record), record)
  {
    if |record| > 1 {
      var s := record[1];
      TrimIsTrim(s);
      var lo, hi :| 0 <= lo <= hi <= |s| && IsSliceTrim(TrimSpace(s), s, lo, hi);
    }
  }
}
