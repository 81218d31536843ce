/** The RTF export's text escaping, heading formatters, paragraph
    formatters and A4 page geometry. Text comes in as JavaScript strings,
    that is sequences of UTF-16 code units; the RTF produced is ASCII. The
    output is read back in two ways: control words as section "Control
    words" of the Microsoft Rich Text Format Specification 1.9.1 describes
    them, and escaped text by the decoder that inverts the exporter's own
    escapes. */
module FormatRtf {
  import opened Wrappers
  import opened SeqFacts

  /** A UTF-16 code unit. */
  newtype CodeUnit = x: int | 0 <= x < 0x1_0000

  predicate IsDigit(c: char) { '0' <= c <= '9' }

  predicate IsLower(c: char) { 'a' <= c <= 'z' }

  predicate Ascii(s: string) {
    forall i :: 0 <= i < |s| ==> s[i] as int < 128
  }

  lemma AsciiAppend(a: string, b: string)
    requires Ascii(a) && Ascii(b)
    ensures Ascii(a + b)
  {
    assert forall i :: |a| <= i < |a + b| ==> (a + b)[i] == b[i - |a|];
  }

  //---------------------------------------------------------------------------
  // Decimal numerals (template-string interpolation of integers)
  //---------------------------------------------------------------------------

  function Digit(d: nat): (c: char)
    requires d < 10
    ensures IsDigit(c)
  {
    ('0' as int + d) as char
  }

  /** The decimal numeral of `n`, without leading zeros. */
  function Decimal(n: nat): (s: string)
    ensures s != [] && forall i :: 0 <= i < |s| ==> IsDigit(s[i])
  {
    if n < 10 then [Digit(n)] else Decimal(n / 10) + [Digit(n % 10)]
  }

  predicate AllDigits(s: string) {
    forall i :: 0 <= i < |s| ==> IsDigit(s[i])
  }

  /** The value of a string of decimal digits. */
  function DecValue(s: string): nat
    requires AllDigits(s)
  {
    if s == [] then 0 else DecValue(s[..|s| - 1]) * 10 + (s[|s| - 1] as int - '0' as int)
  }

  lemma {:induction false} DecimalValue(n: nat)
    ensures DecValue(Decimal(n)) == n
  {
    if n >= 10 {
      var s := Decimal(n);
      assert s[..|s| - 1] == Decimal(n / 10);
      DecimalValue(n / 10);
    }
  }

  /** The number of decimal digits `s` starts with. */
  function Digits(s: string): (n: nat)
    ensures n <= |s| && AllDigits(s[..n])
    ensures n < |s| ==> !IsDigit(s[n])
  {
    if s != [] && IsDigit(s[0]) then
      var m := Digits(s[1..]);
      assert s[..m + 1] == [s[0]] + s[1..][..m];
      1 + m
    else 0
  }

  lemma {:induction false} DigitsOf(ds: string, rest: string)
    requires AllDigits(ds) && (rest == [] || !IsDigit(rest[0]))
    ensures Digits(ds + rest) == |ds|
  {
    if ds != [] {
      assert (ds + rest)[1..] == ds[1..] + rest;
      DigitsOf(ds[1..], rest);
    }
  }

  /** The number of lower-case letters `s` starts with. */
  function Letters(s: string): (n: nat)
    ensures n <= |s|
  {
    if s != [] && IsLower(s[0]) then 1 + Letters(s[1..]) else 0
  }

  lemma {:induction false} LettersOf(ls: string, rest: string)
    requires forall i :: 0 <= i < |ls| ==> IsLower(ls[i])
    requires rest == [] || !IsLower(rest[0])
    ensures Letters(ls + rest) == |ls|
  {
    if ls != [] {
      assert (ls + rest)[1..] == ls[1..] + rest;
      LettersOf(ls[1..], rest);
    }
  }

  //---------------------------------------------------------------------------
  // Escaping (`escape` and `charEscape`)
  //---------------------------------------------------------------------------

  /** `charEscape`: a code unit above 127 becomes `\u<code>?`, the three
      RTF special characters get a backslash, a double quote becomes the
      hex escape `\'94`, and any other ASCII character is itself. The output
      starts with a backslash exactly when the unit needs escaping. */
  function EscapeUnit(c: CodeUnit): (r: string)
    ensures r != [] && Ascii(r)
    ensures r[0] == '\\' <==> c > 127 || c == 92 || c == 123 || c == 125 || c == 34
  {
    if c > 127 then "\\u" + Decimal(c as nat) + "?"
    else if c == 92 then "\\\\"
    else if c == 123 then "\\{"
    else if c == 125 then "\\}"
    else if c == 34 then "\\'94"
    else [(c as int) as char]
  }

  /** The per-unit map of `escape` on a string. */
  function EscapeUnits(s: seq<CodeUnit>): (r: string)
    ensures Ascii(r)
    ensures |r| >= |s|
  {
    if s == [] then "" else EscapeUnit(s[0]) + EscapeUnits(s[1..])
  }

  /** `escape`: a falsy argument (undefined, here `None`, or the empty
      string) is returned as it is. */
  function Escape(t: Option<seq<CodeUnit>>): (r: Option<string>)
    ensures r.None? <==> t.None?
    ensures t == Some([]) ==> r == Some("")
    ensures r.Some? ==> Ascii(r.value)
  {
    match t
    case None => None
    case Some(s) => if s == [] then Some("") else Some(EscapeUnits(s))
  }

  /** Escaping distributes over concatenation. */
  lemma {:induction false} EscapeAppend(a: seq<CodeUnit>, b: seq<CodeUnit>)
    ensures EscapeUnits(a + b) == EscapeUnits(a) + EscapeUnits(b)
  {
    if a == [] {
      assert a + b == b;
    } else {
      EscapeAppend(a[1..], b);
      EscapeAppendStep(a[0], a[1..], b);
      HeadTail(a, b);
    }
  }

  lemma EscapeAppendStep(c: CodeUnit, t: seq<CodeUnit>, b: seq<CodeUnit>)
    requires EscapeUnits(t + b) == EscapeUnits(t) + EscapeUnits(b)
    ensures EscapeUnits([c] + (t + b)) == EscapeUnits([c] + t) + EscapeUnits(b)
  {
    EscapeCons(c, t);
    EscapeCons(c, t + b);
    Associative(EscapeUnit(c), EscapeUnits(t), EscapeUnits(b));
  }

  lemma EscapeCons(c: CodeUnit, s: seq<CodeUnit>)
    ensures EscapeUnits([c] + s) == EscapeUnit(c) + EscapeUnits(s)
  {
    ConsParts(c, s);
  }

  //---------------------------------------------------------------------------
  // Reading escaped text back
  //---------------------------------------------------------------------------

  function Prepend(c: CodeUnit, o: Option<seq<CodeUnit>>): Option<seq<CodeUnit>> {
    if o.None? then None else Some([c] + o.value)
  }

  /** The decoder that inverts the exporter's escapes: `\\`, `\{`, `\}`
      stand for the character after the backslash, `\'94` for the double
      quote the exporter mapped to it, `\uN?` for the code unit N (the `?`
      being the one-character fallback), and every other ASCII character
      stands for itself. Anything else is not escaped text. This is not what
      a word processor shows: a cp1252 reader shows `\'94` as a right double
      quotation mark, and RTF readers skip bare carriage returns and line
      feeds. */
  function Unescape(t: string): Option<seq<CodeUnit>>
    decreases |t|
  {
    if t == [] then Some([])
    else if t[0] != '\\' then
      if t[0] as int < 128 && t[0] != '{' && t[0] != '}' then Prepend(t[0] as int as CodeUnit, Unescape(t[1..]))
      else None
    else if |t| >= 2 && (t[1] == '\\' || t[1] == '{' || t[1] == '}') then
      Prepend(t[1] as int as CodeUnit, Unescape(t[2..]))
    else if |t| >= 4 && t[1..4] == "'94" then
      Prepend(34, Unescape(t[4..]))
    else if |t| >= 2 && t[1] == 'u' then
      var u := t[2..];
      var n := Digits(u);
      if n > 0 && n < |u| && u[n] == '?' && DecValue(u[..n]) < 0x1_0000 then
        Prepend(DecValue(u[..n]) as CodeUnit, Unescape(u[n + 1..]))
      else None
    else None
  }

  lemma UnescapeUnit(c: CodeUnit, rest: string)
    ensures Unescape(EscapeUnit(c) + rest) == Prepend(c, Unescape(rest))
  {
    if c > 127 {
      UnescapeWide(c, rest);
    } else if c == 92 || c == 123 || c == 125 || c == 34 {
      UnescapeSpecial(c, rest);
    } else {
      var t := EscapeUnit(c) + rest;
      assert t[0] == (c as int) as char && t[1..] == rest;
    }
  }

  /** `\uN?` reads back as the code unit N. */
  lemma UnescapeWide(c: CodeUnit, rest: string)
    requires c > 127
    ensures Unescape(EscapeUnit(c) + rest) == Prepend(c, Unescape(rest))
  {
    var d := Decimal(c as nat);
    DecimalValue(c as nat);
    assert EscapeUnit(c) + rest == "\\u" + d + "?" + rest;
    UnescapeNumeral(d, c as nat, rest);
  }

  lemma UnescapeNumeral(d: string, v: nat, rest: string)
    requires d != [] && AllDigits(d) && DecValue(d) == v < 0x1_0000
    ensures Unescape("\\u" + d + "?" + rest) == Prepend(v as CodeUnit, Unescape(rest))
  {
    var t := "\\u" + d + "?" + rest;
    assert t[0] == '\\' && t[1] == 'u';
    var u := t[2..];
    assert u == d + ("?" + rest);
    DigitsOf(d, "?" + rest);
    assert u[..|d|] == d && u[|d|] == '?' && u[|d| + 1..] == rest;
  }

  /** `\\`, `\{`, `\}` and `\'94` read back as the unit they stand for. */
  lemma UnescapeSpecial(c: CodeUnit, rest: string)
    requires c == 92 || c == 123 || c == 125 || c == 34
    ensures Unescape(EscapeUnit(c) + rest) == Prepend(c, Unescape(rest))
  {
    var t := EscapeUnit(c) + rest;
    if c == 34 {
      assert t == "\\'94" + rest;
      assert t[0] == '\\' && t[1] == '\'' && t[1..4] == "'94" && t[4..] == rest;
    } else {
      assert t[0] == '\\' && t[1] as int == c as int && t[2..] == rest;
    }
  }

  /** Escaping loses nothing: decoding the escaped text gives the original
      code units. */
  lemma {:induction false} UnescapeEscape(s: seq<CodeUnit>)
    ensures Unescape(EscapeUnits(s)) == Some(s)
  {
    if s != [] {
      UnescapeUnit(s[0], EscapeUnits(s[1..]));
      UnescapeEscape(s[1..]);
      assert [s[0]] + s[1..] == s;
    }
  }

  /** Escaping is one-to-one. */
  lemma EscapeInjective(a: seq<CodeUnit>, b: seq<CodeUnit>)
    requires EscapeUnits(a) == EscapeUnits(b)
    ensures a == b
  {
    UnescapeEscape(a);
    UnescapeEscape(b);
  }

  //---------------------------------------------------------------------------
  // Headings (`hact` and `hchapter`)
  //---------------------------------------------------------------------------

  /** The fields of a heading element; a missing title or number is
      `None`. */
  datatype HeadingElem = HeadingElem(title: Option<seq<CodeUnit>>, number: Option<int>, pgbreak: bool)

  predicate TitleSet(h: HeadingElem) { h.title.Some? && h.title.value != [] }

  /** JavaScript treats the number 0 as falsy. */
  predicate NumberSet(h: HeadingElem) { h.number.Some? && h.number.value != 0 }

  /** An integer as the code units of its decimal numeral. */
  function IntText(n: int): (r: seq<CodeUnit>)
    ensures r != []
  {
    var s := if n < 0 then "-" + Decimal(-n) else Decimal(n);
    seq(|s|, i requires 0 <= i < |s| => if s[i] == '-' then 45 else (s[i] as int) as CodeUnit)
  }

  /** Joins the items with `sep` between neighbours. */
  function Join(items: seq<seq<CodeUnit>>, sep: seq<CodeUnit>): seq<CodeUnit> {
    if items == [] then []
    else if |items| == 1 then items[0]
    else items[0] + sep + Join(items[1..], sep)
  }

  const Dot: seq<CodeUnit> := [46, 32]

  /** The heading text: nothing when neither title nor number is set,
      otherwise the number and the title that are set, in that order,
      separated by ". ". */
  function HeadText(h: HeadingElem): (r: Option<seq<CodeUnit>>)
    ensures r.None? <==> !TitleSet(h) && !NumberSet(h)
    ensures r.Some? ==> r.value != []
  {
    if !TitleSet(h) && !NumberSet(h) then None
    else
      var numbering := if NumberSet(h) then [IntText(h.number.value)] else [];
      var text := if TitleSet(h) then [h.title.value] else [];
      Some(Join(numbering + text, Dot))
  }

  lemma HeadTextParts(h: HeadingElem)
    ensures NumberSet(h) && TitleSet(h) ==> HeadText(h) == Some(IntText(h.number.value) + Dot + h.title.value)
    ensures NumberSet(h) && !TitleSet(h) ==> HeadText(h) == Some(IntText(h.number.value))
    ensures !NumberSet(h) && TitleSet(h) ==> HeadText(h) == Some(h.title.value)
  {
    if NumberSet(h) && TitleSet(h) {
      var items := [IntText(h.number.value)] + [h.title.value];
      assert |items| == 2 && items[0] == IntText(h.number.value) && items[1..] == [h.title.value];
      assert Join(items[1..], Dot) == h.title.value;
    }
  }

  /** The heading text escaped between an opening `pre` and `\\par}`. */
  function Framed(pre: string, head: seq<CodeUnit>): (r: string)
    requires Ascii(pre)
    ensures Ascii(r)
    ensures var e := EscapeUnits(head) + "\\par}";
      |e| <= |r| && r[|r| - |e|..] == e
  {
    AsciiAppend(pre, EscapeUnits(head));
    AsciiAppend(pre + EscapeUnits(head), "\\par}");
    assert pre + EscapeUnits(head) + "\\par}" == pre + (EscapeUnits(head) + "\\par}");
    pre + EscapeUnits(head) + "\\par}"
  }

  /** The opening group of a heading: `\pagebb` when a page break is asked
      for and `otherwise` when not, then the heading's `style` words. */
  function Opening(pgbreak: bool, otherwise: string, style: string): (r: string)
    requires Ascii(otherwise) && Ascii(style)
    ensures Ascii(r)
  {
    AsciiAppend("{", if pgbreak then "\\pagebb" else otherwise);
    AsciiAppend("{" + (if pgbreak then "\\pagebb" else otherwise), style);
    "{" + (if pgbreak then "\\pagebb" else otherwise) + style
  }

  /** `hact`: a centred bold heading, with a page break when asked for. */
  function Hact(h: HeadingElem): (r: Option<string>)
    ensures r.None? <==> HeadText(h).None?
    ensures r.Some? ==> Ascii(r.value)
  {
    match HeadText(h)
    case None => None
    case Some(head) => Some(Framed(Opening(h.pgbreak, "", "\\sb1000\\qc\\b\\fs32 "), head))
  }

  /** `hchapter`: a bold heading, after a page break or spacing. */
  function Hchapter(h: HeadingElem): (r: Option<string>)
    ensures r.None? <==> HeadText(h).None?
    ensures r.Some? ==> Ascii(r.value)
  {
    match HeadText(h)
    case None => None
    case Some(head) => Some(Framed(Opening(h.pgbreak, "\\sb480", "\\b\\fs28 "), head))
  }

  /** Both heading formatters end with the escaped heading text, which
      decodes to the heading text. */
  lemma HeadingsCarryText(h: HeadingElem)
    requires HeadText(h).Some?
    ensures var e := EscapeUnits(HeadText(h).value) + "\\par}";
      var a := Hact(h).value;
      var c := Hchapter(h).value;
      |e| <= |a| && a[|a| - |e|..] == e && |e| <= |c| && c[|c| - |e|..] == e
    ensures Unescape(EscapeUnits(HeadText(h).value)) == HeadText(h)
  {
    UnescapeEscape(HeadText(h).value);
  }

  //---------------------------------------------------------------------------
  // RTF control words
  //---------------------------------------------------------------------------

  datatype ControlWord = ControlWord(name: string, param: Option<int>)

  /** A space delimiting a control word belongs to it. */
  function Delimited(t: string): string {
    if t != [] && t[0] == ' ' then t[1..] else t
  }

  /** Reads the optional numeric parameter (digits, optionally after a
      hyphen) and the delimiter that follow a control word's letters. */
  function ReadParam(t: string): (r: (Option<int>, string))
    ensures |r.1| <= |t|
  {
    if t != [] && (IsDigit(t[0]) || (t[0] == '-' && |t| > 1 && IsDigit(t[1]))) then
      var neg := t[0] == '-';
      var u := if neg then t[1..] else t;
      var d := Digits(u);
      var v: int := DecValue(u[..d]);
      (Some(if neg then -v else v), Delimited(u[d..]))
    else
      (None, Delimited(t))
  }

  /** Reads the control word `s` starts with: a backslash, lower-case
      letters, the parameter and the delimiter. Returns the word and the
      text after it. */
  function ReadControlWord(s: string): (r: Option<(ControlWord, string)>)
    ensures r.Some? ==> |r.value.1| < |s|
  {
    if |s| < 2 || s[0] != '\\' || !IsLower(s[1]) then None
    else
      var n := Letters(s[1..]);
      var param := ReadParam(s[1 + n..]);
      Some((ControlWord(s[1..1 + n], param.0), param.1))
  }

  lemma ReadName(name: string, t: string)
    requires name != [] && forall i :: 0 <= i < |name| ==> IsLower(name[i])
    requires t == [] || !IsLower(t[0])
    ensures ReadControlWord("\\" + name + t) == Some((ControlWord(name, ReadParam(t).0), ReadParam(t).1))
  {
    var s := "\\" + name + t;
    assert s[0] == '\\' && s[1] == name[0];
    assert s[1..] == name + t;
    LettersOf(name, t);
    assert s[1..1 + |name|] == name && s[1 + |name|..] == t;
  }

  lemma ReadNumber(p: nat, delim: string, rest: string)
    requires delim == " " || (delim == [] && (rest == [] || (!IsDigit(rest[0]) && rest[0] != ' ')))
    ensures ReadParam(Decimal(p) + delim + rest) == (Some(p), rest)
  {
    DecimalValue(p);
    ReadDigits(Decimal(p), p, delim, rest);
  }

  lemma ReadDigits(d: string, v: nat, delim: string, rest: string)
    requires d != [] && AllDigits(d) && DecValue(d) == v
    requires delim == " " || (delim == [] && (rest == [] || (!IsDigit(rest[0]) && rest[0] != ' ')))
    ensures ReadParam(d + delim + rest) == (Some(v), rest)
  {
    var t := d + delim + rest;
    assert t == d + (delim + rest);
    assert IsDigit(t[0]) && t[0] != '-';
    DigitsOf(d, delim + rest);
    assert t[..|d|] == d && t[|d|..] == delim + rest;
    assert Delimited(delim + rest) == rest;
  }

  /** A control word with a parameter, followed by `rest`, reads as that
      word and leaves `rest`, when a space delimits it or `rest` starts with
      neither a digit nor a space. */
  lemma ReadWord(name: string, p: nat, delim: string, rest: string)
    requires name != [] && forall i :: 0 <= i < |name| ==> IsLower(name[i])
    requires delim == " " || (delim == [] && (rest == [] || (!IsDigit(rest[0]) && rest[0] != ' ')))
    ensures ReadControlWord("\\" + name + Decimal(p) + delim + rest)
         == Some((ControlWord(name, Some(p)), rest))
  {
    var t := Decimal(p) + delim + rest;
    assert "\\" + name + Decimal(p) + delim + rest == "\\" + name + t;
    ReadName(name, t);
    ReadNumber(p, delim, rest);
  }

  //---------------------------------------------------------------------------
  // Paragraph formatters (`p` and `missing`)
  //---------------------------------------------------------------------------

  /** The spacing before a first paragraph and the indent of the others, in
      twips. */
  const FirstSpacing: nat := 480
  const Indent: nat := 567

  /** The `p` formatter as written: the spacing word of a first paragraph
      is followed directly by the paragraph's text. */
  function ParagraphAsWritten(first: bool, text: string): string {
    "{" + (if first then "\\sb" + Decimal(FirstSpacing) else "\\fi" + Decimal(Indent) + " ") + text + "\\par}"
  }

  /** The `p` formatter with the space delimiter after `\sb480` that `\fi567`
      already has. */
  function Paragraph(first: bool, text: string): string {
    "{" + (if first then "\\sb" + Decimal(FirstSpacing) + " " else "\\fi" + Decimal(Indent) + " ") + text + "\\par}"
  }

  /** The `missing` formatter: the paragraph in colour 2. */
  function Missing(first: bool, text: string): string {
    "{" + (if first then "\\sb" + Decimal(FirstSpacing) else "\\fi" + Decimal(Indent)) + "\\cf2 " + text + "\\par}"
  }

  /** The corrected formatter: an RTF reader sees the spacing or indent
      word and then exactly the paragraph's text, whatever the text. */
  lemma ParagraphReads(first: bool, text: string)
    ensures ReadControlWord(Paragraph(first, text)[1..])
         == Some((if first then ControlWord("sb", Some(FirstSpacing)) else ControlWord("fi", Some(Indent)),
                  text + "\\par}"))
  {
    var name := if first then "sb" else "fi";
    var p := if first then FirstSpacing else Indent;
    assert Paragraph(first, text)[1..] == "\\" + name + Decimal(p) + " " + (text + "\\par}");
    ReadWord(name, p, " ", text + "\\par}");
  }

  /** The `missing` formatter reads as the spacing or indent word, the
      colour word, and the text. */
  lemma MissingReads(first: bool, text: string)
    ensures var w := ReadControlWord(Missing(first, text)[1..]);
      w == Some((if first then ControlWord("sb", Some(FirstSpacing)) else ControlWord("fi", Some(Indent)),
                 "\\cf2 " + text + "\\par}"))
      && ReadControlWord(w.value.1) == Some((ControlWord("cf", Some(2)), text + "\\par}"))
  {
    var name := if first then "sb" else "fi";
    var p := if first then FirstSpacing else Indent;
    var rest := "\\cf2 " + text + "\\par}";
    var lead := "\\" + name + Decimal(p);
    assert Missing(first, text) == "{" + lead + rest;
    assert Missing(first, text)[1..] == lead + [] + rest;
    ReadWord(name, p, [], rest);
    ColourReads(text);
  }

  lemma ColourReads(text: string)
    ensures ReadControlWord("\\cf2 " + text + "\\par}") == Some((ControlWord("cf", Some(2)), text + "\\par}"))
  {
    assert "\\cf2 " + text + "\\par}" == "\\" + "cf" + Decimal(2) + " " + (text + "\\par}");
    ReadWord("cf", 2, " ", text + "\\par}");
  }

  /** As written, a first paragraph whose text starts with a digit loses
      that digit (and the space after it) into the spacing parameter:
      "7 dwarves" is formatted as 4807 twips of spacing before "dwarves". */
  lemma FirstParagraphDigitsSwallowed()
    ensures ReadControlWord(ParagraphAsWritten(true, "7 dwarves")[1..])
         == Some((ControlWord("sb", Some(4807)), "dwarves\\par}"))
  {
    assert ParagraphAsWritten(true, "7 dwarves")[1..] == "\\" + "sb" + Decimal(4807) + " " + "dwarves\\par}";
    ReadWord("sb", 4807, " ", "dwarves\\par}");
  }

  /** As written, the first paragraph is read correctly exactly when its
      text does not start with a digit or a space. */
  lemma FirstParagraphAsWrittenReads(text: string)
    requires text == [] || (!IsDigit(text[0]) && text[0] != ' ')
    ensures ReadControlWord(ParagraphAsWritten(true, text)[1..])
         == Some((ControlWord("sb", Some(FirstSpacing)), text + "\\par}"))
  {
    var rest := text + "\\par}";
    assert ParagraphAsWritten(true, text)[1..] == "\\" + "sb" + Decimal(FirstSpacing) + [] + rest;
    ReadWord("sb", FirstSpacing, [], rest);
  }

  //---------------------------------------------------------------------------
  // A4 page geometry, in twips
  //---------------------------------------------------------------------------

  const PaperWidth: int := 11905
  const PaperHeight: int := 16837
  const TextWidth: int := PaperWidth - 2 * 1701
  const Gutter: int := 500

  datatype Margins = Margins(left: int, right: int)

  /** The margins of single-sided printing: the text is centred. The
      division is exact, so the value written is a whole number of twips. */
  function SingleA4(): (m: Margins)
    ensures m.left == m.right
    ensures m.left + TextWidth + m.right == PaperWidth
  {
    var side := (PaperWidth - TextWidth) / 2;
    assert 2 * side == PaperWidth - TextWidth;
    Margins(side, side)
  }

  /** The mirrored margins of double-sided printing: the gutter moves the
      text, which keeps its width. */
  function DoubleA4(): (m: Margins)
    ensures m.left - m.right == 2 * Gutter
    ensures m.left + TextWidth + m.right == PaperWidth
    ensures m.right > 0
  {
    var side := (PaperWidth - TextWidth) / 2;
    Margins(side + Gutter, side - Gutter)
  }
}
