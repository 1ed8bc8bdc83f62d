/** `_sanitize_string_for_log`: several escaping passes over a string, then a cut in the middle. */
module LogEscaping {
  import opened Wrappers
  import opened Numerals

  // ---------------------------------------------------------------- the passes

  /** `str.replace` of one character. */
  function Replace(s: string, c: char, text: string): string {
    if s == "" then ""
    else (if s[0] == c then text else [s[0]]) + Replace(s[1..], c, text)
  }

  /** The `\x%02x` form of a control character. */
  function HexForm(c: char): string
    requires c as int < 32
  {
    ['\\', 'x', HexDigit(c as int / 16), HexDigit(c as int % 16)]
  }

  /** The last pass: every character below 32 becomes its hexadecimal form. */
  function ReplaceControls(s: string): string {
    if s == "" then ""
    else (if s[0] as int < 32 then HexForm(s[0]) else [s[0]]) + ReplaceControls(s[1..])
  }

  /** The five passes in the order they run; the backslash must come first. */
  function EscapePasses(s: string): string {
    ReplaceControls(Replace(Replace(Replace(Replace(s, '\\', "\\\\"), '\n', "\\n"), '\r', "\\r"), '\t', "\\t"))
  }

  // ---------------------------------------------------------------- one map

  function EscapeChar(c: char): string {
    if c == '\\' then "\\\\"
    else if c == '\n' then "\\n"
    else if c == '\r' then "\\r"
    else if c == '\t' then "\\t"
    else if c as int < 32 then HexForm(c)
    else [c]
  }

  function Escape(s: string): string {
    if s == "" then "" else EscapeChar(s[0]) + Escape(s[1..])
  }

  lemma Associate(a: string, b: string, c: string)
    ensures (a + b) + c == a + (b + c)
  {
  }

  lemma {:induction false} ReplaceConcat(a: string, b: string, c: char, text: string)
    ensures Replace(a + b, c, text) == Replace(a, c, text) + Replace(b, c, text)
  {
    if a == "" {
      assert a + b == b;
    } else {
      ReplaceConcat(a[1..], b, c, text);
      var ab := a + b;
      assert ab != "" && ab[0] == a[0] && ab[1..] == a[1..] + b;
      Associate(if a[0] == c then text else [a[0]], Replace(a[1..], c, text), Replace(b, c, text));
    }
  }

  lemma {:induction false} ReplaceControlsConcat(a: string, b: string)
    ensures ReplaceControls(a + b) == ReplaceControls(a) + ReplaceControls(b)
  {
    if a == "" {
      assert a + b == b;
    } else {
      hide HexForm;
      ReplaceControlsConcat(a[1..], b);
      var ab := a + b;
      assert ab != "" && ab[0] == a[0] && ab[1..] == a[1..] + b;
      Associate(if a[0] as int < 32 then HexForm(a[0]) else [a[0]], ReplaceControls(a[1..]), ReplaceControls(b));
    }
  }

  lemma PassesConcat(a: string, b: string)
    ensures EscapePasses(a + b) == EscapePasses(a) + EscapePasses(b)
  {
    var a1, b1 := Replace(a, '\\', "\\\\"), Replace(b, '\\', "\\\\");
    var a2, b2 := Replace(a1, '\n', "\\n"), Replace(b1, '\n', "\\n");
    var a3, b3 := Replace(a2, '\r', "\\r"), Replace(b2, '\r', "\\r");
    var a4, b4 := Replace(a3, '\t', "\\t"), Replace(b3, '\t', "\\t");
    ReplaceConcat(a, b, '\\', "\\\\");
    ReplaceConcat(a1, b1, '\n', "\\n");
    ReplaceConcat(a2, b2, '\r', "\\r");
    ReplaceConcat(a3, b3, '\t', "\\t");
    ReplaceControlsConcat(a4, b4);
  }

  lemma ReplaceOne(x: char, c: char, text: string)
    ensures Replace([x], c, text) == if x == c then text else [x]
  {
    assert Replace("", c, text) == "";
  }

  lemma ReplacePair(x: char, y: char, c: char, text: string)
    requires x != c && y != c
    ensures Replace([x, y], c, text) == [x, y]
  {
    assert [x, y][1..] == [y];
    ReplaceOne(y, c, text);
  }

  lemma ReplaceControlsShort(x: char, y: char)
    ensures ReplaceControls([x]) == if x as int < 32 then HexForm(x) else [x]
    ensures 32 <= x as int && 32 <= y as int ==> ReplaceControls([x, y]) == [x, y]
  {
    assert ReplaceControls("") == "";
    assert [y][1..] == "";
    assert [x, y][1..] == [y];
    assert 32 <= y as int ==> ReplaceControls([y]) == [y];
  }

  lemma PassesOnOneChar(c: char)
    ensures EscapePasses([c]) == EscapeChar(c)
  {
    ReplaceOne(c, '\\', "\\\\");
    ReplaceOne(c, '\n', "\\n");
    ReplaceOne(c, '\r', "\\r");
    ReplaceOne(c, '\t', "\\t");
    ReplaceControlsShort(c, c);
    ReplacePair('\\', '\\', '\n', "\\n");
    ReplacePair('\\', '\\', '\r', "\\r");
    ReplacePair('\\', '\\', '\t', "\\t");
    ReplaceControlsShort('\\', '\\');
    ReplacePair('\\', 'n', '\r', "\\r");
    ReplacePair('\\', 'n', '\t', "\\t");
    ReplaceControlsShort('\\', 'n');
    ReplacePair('\\', 'r', '\t', "\\t");
    ReplaceControlsShort('\\', 'r');
    ReplaceControlsShort('\\', 't');
  }

  /** The sequential passes equal one character-by-character map: no pass disturbs what an earlier one wrote. */
  lemma {:induction false} PassesAreOneMap(s: string)
    ensures EscapePasses(s) == Escape(s)
  {
    if s != "" {
      PassesConcat([s[0]], s[1..]);
      assert [s[0]] + s[1..] == s;
      PassesOnOneChar(s[0]);
      PassesAreOneMap(s[1..]);
    }
  }

  // ---------------------------------------------------------------- reading it back

  /** The value of a lower-case hexadecimal digit, or 16. */
  function HexValue(c: char): nat {
    if '0' <= c <= '9' then c as int - '0' as int
    else if 'a' <= c <= 'f' then c as int - 'a' as int + 10
    else 16
  }

  /** The character at the head of an escaped text and the length of its escape, if the text starts with one. */
  function UnescapeChar(t: string): Option<(char, nat)>
    requires t != ""
  {
    if t[0] != '\\' then (if t[0] as int < 32 then None else Some((t[0], 1)))
    else if |t| < 2 then None
    else if t[1] == '\\' then Some(('\\', 2))
    else if t[1] == 'n' then Some(('\n', 2))
    else if t[1] == 'r' then Some(('\r', 2))
    else if t[1] == 't' then Some(('\t', 2))
    else if t[1] != 'x' || |t| < 4 then None
    else
      var v := 16 * HexValue(t[2]) + HexValue(t[3]);
      if HexValue(t[2]) < 2 && HexValue(t[3]) < 16 && v != 9 && v != 10 && v != 13 then Some((v as char, 4)) else None
  }

  function Unescape(t: string): Option<string>
    decreases |t|
  {
    if t == "" then Some("")
    else
      match UnescapeChar(t)
      case None => None
      case Some((c, n)) =>
        if |t| < n || n == 0 then None
        else match Unescape(t[n..])
          case None => None
          case Some(rest) => Some([c] + rest)
  }

  lemma HeadDecodes(c: char, rest: string)
    ensures UnescapeChar(EscapeChar(c) + rest) == Some((c, |EscapeChar(c)|))
  {
    var t := EscapeChar(c) + rest;
    if c as int < 32 {
      assert t[0] == '\\' && 2 <= |t| && t[1] == EscapeChar(c)[1];
    }
  }

  lemma HeadIsEscape(t: string)
    requires t != "" && UnescapeChar(t).Some?
    ensures UnescapeChar(t).value.1 <= |t|
    ensures var (c, n) := UnescapeChar(t).value; 0 < n <= |t| && t[..n] == EscapeChar(c)
  {
    var (c, n) := UnescapeChar(t).value;
    if n == 4 {
      assert t[..4] == [t[0], t[1], t[2], t[3]];
    } else if n == 2 {
      assert t[..2] == [t[0], t[1]];
    }
  }

  lemma {:induction false} UnescapeInverts(s: string)
    ensures Unescape(Escape(s)) == Some(s)
  {
    if s != "" {
      hide UnescapeChar, EscapeChar;
      var head, rest, t := EscapeChar(s[0]), Escape(s[1..]), Escape(s);
      HeadDecodes(s[0], rest);
      HeadIsEscape(t);
      assert t == head + rest && t[|head|..] == rest;
      UnescapeInverts(s[1..]);
      assert [s[0]] + s[1..] == s;
    }
  }

  lemma UnescapeStep(t: string)
    requires t != "" && Unescape(t).Some?
    ensures UnescapeChar(t).Some?
    ensures var (c, n) := UnescapeChar(t).value;
            0 < n <= |t| && Unescape(t[n..]).Some? && Unescape(t).value == [c] + Unescape(t[n..]).value
  {
    hide UnescapeChar, EscapeChar;
  }

  lemma {:induction false} UnescapeOnlyInverts(t: string)
    requires Unescape(t).Some?
    ensures t == Escape(Unescape(t).value)
    decreases |t|
  {
    if t == "" {
      return;
    }
    hide Unescape, Escape, UnescapeChar, EscapeChar;
    UnescapeStep(t);
    HeadIsEscape(t);
    var c, n := UnescapeChar(t).value.0, UnescapeChar(t).value.1;
    var head, tail := t[..n], t[n..];
    assert t == head + tail;
    UnescapeOnlyInverts(tail);
    EscapeCons(c, Unescape(tail).value);
  }

  lemma EscapeCons(c: char, rest: string)
    ensures Escape([c] + rest) == EscapeChar(c) + Escape(rest)
  {
    assert ([c] + rest)[1..] == rest;
  }

  /** A text decodes to `s` exactly when it is what the passes make of `s`; so escaping is injective. */
  lemma EscapingIsDecodable(s: string, t: string)
    ensures Unescape(t) == Some(s) <==> t == EscapePasses(s)
    ensures EscapePasses(s) == EscapePasses(t) ==> s == t
  {
    PassesAreOneMap(s);
    PassesAreOneMap(t);
    UnescapeInverts(s);
    UnescapeInverts(t);
    if Unescape(t).Some? { UnescapeOnlyInverts(t); }
  }

  // ---------------------------------------------------------------- what the passes let through

  lemma {:induction false} EscapeIsFreeOfC0(s: string)
    ensures FreeOfC0(Escape(s)) && |s| <= |Escape(s)| <= 4 * |s|
  {
    if s != "" {
      EscapeIsFreeOfC0(s[1..]);
      assert FreeOfC0(EscapeChar(s[0]));
    }
  }

  /** Every character from 127 on passes unchanged, and none arises. */
  lemma {:induction false} HighCharsStay(s: string, c: char)
    requires 127 <= c as int
    ensures c in Escape(s) <==> c in s
  {
    if s != "" {
      HighCharsStay(s[1..], c);
      assert c in EscapeChar(s[0]) <==> c == s[0];
      assert s == [s[0]] + s[1..];
    }
  }

  /** A control character of Unicode, the two blocks C0 and C1 with DEL. */
  predicate IsControl(c: char) {
    c as int < 32 || 127 <= c as int <= 159
  }

  predicate HasControl(s: string) {
    exists c :: c in s && IsControl(c)
  }

  predicate HasHighControl(s: string) {
    exists c :: c in s && 127 <= c as int <= 159
  }

  /** A character at which `str.splitlines` breaks a line. */
  predicate BreaksLine(c: char) {
    var n := c as int;
    10 <= n <= 13 || 28 <= n <= 30 || n == 133 || n == 8232 || n == 8233
  }

  predicate HasLineBreak(s: string) {
    exists c :: c in s && BreaksLine(c)
  }

  /** An escaped text has a control character exactly when the value has DEL or one of the block C1. */
  lemma ControlSurvivesIff(s: string)
    ensures HasControl(EscapePasses(s)) <==> HasHighControl(s)
  {
    hide EscapePasses, Escape;
    PassesAreOneMap(s);
    EscapeIsFreeOfC0(s);
    forall c: char | 127 <= c as int ensures c in Escape(s) <==> c in s {
      HighCharsStay(s, c);
    }
    if HasHighControl(s) {
      var c :| c in s && 127 <= c as int <= 159;
      assert c in Escape(s) && IsControl(c);
    }
  }

  /** It breaks a line exactly when the value has NEL or one of the two separators. */
  lemma LineBreakSurvivesIff(s: string)
    ensures HasLineBreak(EscapePasses(s)) <==> '\U{85}' in s || '\U{2028}' in s || '\U{2029}' in s
  {
    hide EscapePasses, Escape;
    PassesAreOneMap(s);
    EscapeIsFreeOfC0(s);
    forall c: char | 127 <= c as int ensures c in Escape(s) <==> c in s {
      HighCharsStay(s, c);
    }
    assert BreaksLine('\U{85}') && BreaksLine('\U{2028}') && BreaksLine('\U{2029}');
    if HasLineBreak(Escape(s)) {
      var c :| c in Escape(s) && BreaksLine(c);
      assert 32 <= c as int;
      assert c == '\U{85}' || c == '\U{2028}' || c == '\U{2029}';
    }
  }

  // ---------------------------------------------------------------- the cut

  /** The index a slice bound `k` denotes in a sequence of length `n`: negative bounds count from the end. */
  function SliceIndex(n: nat, k: int): (i: nat)
    ensures i <= n
  {
    if k < 0 then (if n + k < 0 then 0 else n + k) else if n < k then n else k
  }

  function SliceTo(s: string, k: int): string {
    s[..SliceIndex(|s|, k)]
  }

  function SliceFrom(s: string, k: int): string {
    s[SliceIndex(|s|, k)..]
  }

  /** Half of what is kept of an over-long text; floor division, so zero below 22 and negative below 20. */
  function Half(maxLength: int): int {
    (maxLength - 20) / 2
  }

  function Note(length: nat): string {
    " (" + Decimal(length) + " chars)"
  }

  function Cut(text: string, maxLength: int, length: nat): string {
    SliceTo(text, Half(maxLength)) + "..." + SliceFrom(text, -Half(maxLength)) + Note(length)
  }

  function SanitizeString(value: string, maxLength: int): string {
    var sanitized := EscapePasses(value);
    if |sanitized| > maxLength then Cut(sanitized, maxLength, |value|) else sanitized
  }

  lemma NoteLength(n: nat)
    ensures |Note(n)| == 9 + |Decimal(n)| && FreeOfC0(Note(n))
  {
    DecimalLength(n, 1);
  }

  lemma CutLength(text: string, maxLength: int, length: nat)
    requires |text| > maxLength
    ensures 22 <= maxLength ==>
              && 0 < Half(maxLength) && 2 * Half(maxLength) <= |text|
              && |Cut(text, maxLength, length)| == maxLength - 8 - maxLength % 2 + |Decimal(length)|
    ensures maxLength < 22 ==> |Cut(text, maxLength, length)| > maxLength - 8 + |Decimal(length)|
  {
    NoteLength(length);
  }

  /**
   A text is cut when its escaped form is too long. From a limit of 22 up, the two kept halves do not overlap and
   the length is determined; below 22 the slices no longer cut and the result exceeds the usual bound. So the bound
   holds exactly from 22 up.
   */
  lemma CutIsBoundedIff(value: string, maxLength: int)
    requires |EscapePasses(value)| > maxLength
    ensures |SanitizeString(value, maxLength)| <= maxLength - 8 + |Decimal(|value|)| <==> 22 <= maxLength
    ensures 22 <= maxLength ==>
              var text, half := EscapePasses(value), Half(maxLength);
              && 0 < half && half <= |text| - half
              && SanitizeString(value, maxLength) == text[..half] + "..." + text[|text| - half..] + Note(|value|)
  {
    CutLength(EscapePasses(value), maxLength, |value|);
  }

  /** A cut result stays within the limit itself exactly from 22 up, and while the value's length has few enough digits. */
  lemma CutFitsIff(value: string, maxLength: int)
    requires |EscapePasses(value)| > maxLength
    ensures |SanitizeString(value, maxLength)| <= maxLength <==> 22 <= maxLength && |value| < Pow10(8 + maxLength % 2)
  {
    hide EscapePasses, Cut;
    CutLength(EscapePasses(value), maxLength, |value|);
    DecimalLength(|value|, 8 + maxLength % 2);
    if maxLength < 22 {
      LongerThanLimit(EscapePasses(value), maxLength, |value|);
    }
  }

  /** Below 22 the halves overlap or are the whole text, so the cut only adds. */
  lemma LongerThanLimit(text: string, maxLength: int, length: nat)
    requires |text| > maxLength && maxLength < 22
    ensures |Cut(text, maxLength, length)| > maxLength
  {
    NoteLength(length);
  }

  /** Whatever the value and the limit, the result holds no character below 32; uncut, it still tells the value. */
  lemma SanitizedIsFreeOfC0(value: string, maxLength: int)
    ensures FreeOfC0(SanitizeString(value, maxLength))
    ensures |EscapePasses(value)| <= maxLength ==> Unescape(SanitizeString(value, maxLength)) == Some(value)
  {
    hide EscapePasses, Unescape, Note, Half;
    var text := EscapePasses(value);
    PassesAreOneMap(value);
    EscapeIsFreeOfC0(value);
    UnescapeInverts(value);
    NoteLength(|value|);
    CutIsFreeOfC0(text, maxLength, |value|);
  }

  lemma FreeOfC0Concat(a: string, b: string)
    requires FreeOfC0(a) && FreeOfC0(b)
    ensures FreeOfC0(a + b)
  {
  }

  lemma CutIsFreeOfC0(text: string, maxLength: int, length: nat)
    requires FreeOfC0(text)
    ensures FreeOfC0(Cut(text, maxLength, length))
  {
    hide Note, Half;
    var front, back := SliceTo(text, Half(maxLength)), SliceFrom(text, -Half(maxLength));
    assert FreeOfC0(front) && FreeOfC0(back);
    assert FreeOfC0("...");
    hide SliceTo, SliceFrom, FreeOfC0;
    NoteLength(length);
    FreeOfC0Concat(front, "...");
    FreeOfC0Concat(front + "...", back);
    FreeOfC0Concat(front + "..." + back, Note(length));
  }

  lemma NoteHasNoHighControl(n: nat)
    ensures !HasHighControl(Note(n))
  {
    DecimalHasDigits(n);
    hide Decimal;
    assert forall c :: c in " (" ==> c as int < 127;
    assert forall c :: c in " chars)" ==> c as int < 127;
  }

  lemma CutAddsNoControl(text: string, maxLength: int, length: nat)
    ensures HasHighControl(Cut(text, maxLength, length)) ==> HasHighControl(text)
  {
    NoteHasNoHighControl(length);
    hide Note, Half;
    var front, back := SliceTo(text, Half(maxLength)), SliceFrom(text, -Half(maxLength));
    assert forall c :: c in front ==> c in text;
    assert forall c :: c in back ==> c in text;
    hide SliceTo, SliceFrom;
    assert forall c :: c in "..." ==> c == '.';
    forall c | c in Cut(text, maxLength, length) && 127 <= c as int <= 159 ensures c in text {
      assert c in front + "..." + back || c in Note(length);
      assert c in front || c in "..." || c in back || c in Note(length);
    }
  }

  /** The same of the whole function: its control characters are those of the value, and only a cut can lose them. */
  lemma SanitizedControls(value: string, maxLength: int)
    ensures HasControl(SanitizeString(value, maxLength)) ==> HasHighControl(value)
    ensures |EscapePasses(value)| <= maxLength ==>
              (HasControl(SanitizeString(value, maxLength)) <==> HasHighControl(value))
  {
    hide EscapePasses, Cut;
    ControlSurvivesIff(value);
    var text := EscapePasses(value);
    if |text| > maxLength {
      SanitizedIsFreeOfC0(value, maxLength);
      CutAddsNoControl(text, maxLength, |value|);
      assert HasHighControl(text) ==> HasControl(text);
    }
  }

  /** DEL, NEL and a line separator reach the log as they are. */
  lemma SomeControlsAreLogged()
    ensures var value := ['\U{7f}', '\U{85}', '\U{2028}'];
            SanitizeString(value, 200) == value && HasControl(value) && HasLineBreak(value)
  {
    var value := ['\U{7f}', '\U{85}', '\U{2028}'];
    assert value[1..] == ['\U{85}', '\U{2028}'] && value[1..][1..] == ['\U{2028}'] && value[1..][1..][1..] == "";
    assert Escape(value[1..][1..]) == ['\U{2028}'];
    assert Escape(value[1..]) == ['\U{85}', '\U{2028}'];
    PassesAreOneMap(value);
    assert '\U{85}' in value && IsControl('\U{85}') && BreaksLine('\U{85}');
  }
}
