/**
 * Field extraction and sign correction inside `get_ftse_data_from_histock`:
 * the price, the change and the change percentage are read from the text of
 * three marked spans of the page's price region and turned into numbers.
 * Finding the region and the spans in the HTML is not modelled: each lookup
 * is an input that either failed or produced the element's text and class list.
 */
module FieldExtractor {
  import opened Wrappers
  import opened PyText
  import opened Quantizer

  /** The glyph the page prints next to a falling value. */
  const DownGlyph: char := '\U{25bc}'
  /** The glyph the page prints next to a rising value. */
  const UpGlyph: char := '\U{25b2}'
  /** The style class of a falling value: on this page green means down. */
  const DownClass: string := "clr-gr"

  /** A located `<span>`: its text and the values of its `class` attribute, in order. */
  datatype Element = Element(text: string, classes: seq<string>)

  /** `el.get('class', [''])[0]` */
  function FirstClass(e: Element): string {
    if |e.classes| == 0 then "" else e.classes[0]
  }

  /**
   * The two-step lookup of one field: the span with the field's id, then the
   * span inside it with class `clr-rd` or `clr-gr`.
   */
  datatype Lookup =
    | NoSpan          // the span with the id is absent: `.find` on `None`, an AttributeError
    | NoMarkedSpan    // the inner span with a direction class is absent
    | Found(element: Element)

  /** The `<ul class="priceinfo">` region with the lookups of its three fields. */
  datatype PriceInfo = PriceInfo(price: Lookup, change: Lookup, percent: Lookup)

  /** The three numbers one successful scrape yields. */
  datatype Quote = Quote(price: real, change: real, changePercent: real)

  datatype Field = PriceField | ChangeField | PercentField

  const PriceInfoMissing: string := "無法找到價格資訊區域"

  /** The message raised when the marked span of a field is absent. */
  function MissingMessage(f: Field): string {
    match f
    case PriceField => "無法找到價格元素"
    case ChangeField => "無法找到漲跌元素"
    case PercentField => "無法找到漲跌百分比元素"
  }

  /** The message raised when a field cannot be read (a ValueError or an AttributeError). */
  function InvalidMessage(f: Field): string {
    match f
    case PriceField => "無法解析價格"
    case ChangeField => "無法解析漲跌"
    case PercentField => "無法解析漲跌百分比"
  }

  /** The text handed to `float()` for the price: stripped, thousands separators removed. */
  function PriceText(e: Element): string {
    Remove(Strip(e.text), {','})
  }

  /** The price, quantised to a quarter point; `None` when `float()` rejects the text. */
  function PriceValue(e: Element): (r: Option<real>)
    ensures r.Some? <==> ParseFloat(PriceText(e)).Some?
    ensures r.Some? ==> IsQuarter(r.value)
    ensures r.Some? && 0.0 <= ParseFloat(PriceText(e)).value ==>
      ParseFloat(PriceText(e)).value - 0.125 < r.value <= ParseFloat(PriceText(e)).value + 0.125
  {
    match ParseFloat(PriceText(e))
    case Some(p) => Some(RoundToQuarter(p))
    case None => None
  }

  /** `change_text`: the stripped text of the change span. */
  function ChangeText(e: Element): string {
    Strip(e.text)
  }

  /** The characters removed from the change text: both glyphs and the thousands separator. */
  const ChangeDrops: set<char> := {DownGlyph, UpGlyph, ','}

  /** The text handed to `float()` for the change. */
  function ChangeNumeral(e: Element): string {
    Remove(ChangeText(e), ChangeDrops)
  }

  /** The change is negated when it carries no minus sign of its own but is marked as falling. */
  predicate ChangeNegated(e: Element) {
    !StartsWith(ChangeText(e), '-') && (DownGlyph in ChangeText(e) || FirstClass(e) == DownClass)
  }

  function ChangeValue(e: Element): (r: Option<real>)
    ensures r.Some? <==> ParseFloat(ChangeNumeral(e)).Some?
  {
    match ParseFloat(ChangeNumeral(e))
    case Some(v) => Some(if ChangeNegated(e) then -v else v)
    case None => None
  }

  /** `percent_text`: the stripped text of the percent span with `%` removed, and nothing else. */
  function PercentText(e: Element): string {
    Remove(Strip(e.text), {'%'})
  }

  /** As written: the glyph is looked for in the raw text, the minus sign in `percent_text`. */
  predicate PercentNegated(e: Element) {
    !StartsWith(PercentText(e), '-') && (DownGlyph in e.text || FirstClass(e) == DownClass)
  }

  function PercentValue(e: Element): (r: Option<real>)
    ensures r.Some? <==> ParseFloat(PercentText(e)).Some?
  {
    match ParseFloat(PercentText(e))
    case Some(v) => Some(if PercentNegated(e) then -v else v)
    case None => None
  }

  function Value(f: Field, e: Element): Option<real> {
    match f
    case PriceField => PriceValue(e)
    case ChangeField => ChangeValue(e)
    case PercentField => PercentValue(e)
  }

  /** One field's `try` block: its value, or the message of the `FTSEDataError` it raises. */
  function ReadField(l: Lookup, f: Field): (r: Result<real, string>)
    ensures r.Ok? <==> l.Found? && Value(f, l.element).Some?
    ensures r.Err? ==> r.error == (if l.NoMarkedSpan? then MissingMessage(f) else InvalidMessage(f))
    ensures r.Ok? ==> r.value == Value(f, l.element).value
  {
    match l
    case NoSpan => Err(InvalidMessage(f))
    case NoMarkedSpan => Err(MissingMessage(f))
    case Found(e) =>
      match Value(f, e)
      case Some(v) => Ok(v)
      case None => Err(InvalidMessage(f))
  }

  /**
   * The fields are read in order, price, change, percent, and the first
   * failure aborts the scrape: a quote is produced only when the region and
   * all three fields were read.
   */
  function ExtractQuote(info: Option<PriceInfo>): (r: Result<Quote, string>)
    ensures r.Ok? <==>
      && info.Some?
      && ReadField(info.value.price, PriceField).Ok?
      && ReadField(info.value.change, ChangeField).Ok?
      && ReadField(info.value.percent, PercentField).Ok?
    ensures r.Ok? ==> IsQuarter(r.value.price)
    ensures info.None? ==> r == Err(PriceInfoMissing)
    ensures info.Some? && ReadField(info.value.price, PriceField).Err? ==>
      r == Err(ReadField(info.value.price, PriceField).error)
    ensures info.Some? && ReadField(info.value.price, PriceField).Ok?
              && ReadField(info.value.change, ChangeField).Err? ==>
      r == Err(ReadField(info.value.change, ChangeField).error)
    ensures info.Some? && ReadField(info.value.price, PriceField).Ok?
              && ReadField(info.value.change, ChangeField).Ok?
              && ReadField(info.value.percent, PercentField).Err? ==>
      r == Err(ReadField(info.value.percent, PercentField).error)
    ensures r.Ok? ==> r.value == Quote(ReadField(info.value.price, PriceField).value,
                                       ReadField(info.value.change, ChangeField).value,
                                       ReadField(info.value.percent, PercentField).value)
  {
    match info
    case None => Err(PriceInfoMissing)
    case Some(region) =>
      match ReadField(region.price, PriceField)
      case Err(m) => Err(m)
      case Ok(price) =>
        match ReadField(region.change, ChangeField)
        case Err(m) => Err(m)
        case Ok(change) =>
          match ReadField(region.percent, PercentField)
          case Err(m) => Err(m)
          case Ok(percent) => Ok(Quote(price, change, percent))
  }

  /** A region whose three fields are all found and parse yields exactly their three values. */
  lemma ExtractFoundFields(p: Element, c: Element, q: Element)
    requires PriceValue(p).Some? && ChangeValue(c).Some? && PercentValue(q).Some?
    ensures var r := ExtractQuote(Some(PriceInfo(Found(p), Found(c), Found(q))));
      && r.Ok?
      && r.value.price == PriceValue(p).value
      && r.value.change == ChangeValue(c).value
      && r.value.changePercent == PercentValue(q).value
  {
    assert Value(PriceField, p) == PriceValue(p);
    assert Value(ChangeField, c) == ChangeValue(c);
    assert Value(PercentField, q) == PercentValue(q);
    var info := PriceInfo(Found(p), Found(c), Found(q));
    assert ReadField(info.price, PriceField).Ok? && ReadField(info.price, PriceField).value == PriceValue(p).value;
    assert ReadField(info.change, ChangeField).Ok? && ReadField(info.change, ChangeField).value == ChangeValue(c).value;
    assert ReadField(info.percent, PercentField).Ok? && ReadField(info.percent, PercentField).value == PercentValue(q).value;
  }

  /** A character that is not whitespace survives stripping and the removal of other characters. */
  lemma Survives(s: string, drop: set<char>, c: char)
    requires c in s && !IsSpace(c) && c !in drop
    ensures c in Remove(Strip(s), drop)
  {
    StripMember(s, c);
    RemoveMember(Strip(s), drop, c);
  }

  /** Removing glyphs and separators keeps a leading minus sign in front. */
  lemma MinusSurvivesRemoval(text: string)
    requires StartsWith(text, '-')
    ensures StartsWith(Remove(text, ChangeDrops), '-')
  {
    assert '-' !in ChangeDrops;
  }

  /** An explicit minus sign is trusted: such a change is never negated again and stays non-positive. */
  lemma ChangeKeepsExplicitMinus(e: Element, v: real)
    requires StartsWith(ChangeText(e), '-') && ChangeValue(e) == Some(v)
    ensures !ChangeNegated(e) && v <= 0.0
  {
    var text := ChangeText(e);
    MinusSurvivesRemoval(text);
    ParseFloatLeadingMinus(ChangeNumeral(e));
    assert !ChangeNegated(e);
  }

  /**
   * For a change written without a minus sign the direction markers alone
   * decide the sign: a down glyph or the down class gives a value <= 0,
   * otherwise the value is >= 0.
   */
  lemma ChangeDirection(e: Element, v: real)
    requires '-' !in e.text && ChangeValue(e) == Some(v)
    ensures DownGlyph in e.text || FirstClass(e) == DownClass ==> v <= 0.0
    ensures !(DownGlyph in e.text || FirstClass(e) == DownClass) ==> 0.0 <= v
  {
    StripMember(e.text, '-');
    StripMember(e.text, DownGlyph);
    RemoveMember(ChangeText(e), ChangeDrops, '-');
    ParseFloatNoMinus(ChangeNumeral(e));
  }

  /** `float()` rejects a percent text that still holds a character foreign to numerals. */
  lemma PercentRejectsChar(e: Element, c: char)
    requires c in e.text && !IsNumeralChar(c) && c != '%'
    ensures PercentValue(e) == None
  {
    Survives(e.text, {'%'}, c);
    if ParseFloat(PercentText(e)).Some? {
      ParseFloatChars(PercentText(e), c);
    }
  }

  /** `float()` rejects any percent text that carries a glyph or a thousands separator. */
  lemma PercentRejectsMarkers(e: Element)
    requires DownGlyph in e.text || UpGlyph in e.text || ',' in e.text
    ensures PercentValue(e) == None
  {
    if DownGlyph in e.text {
      PercentRejectsChar(e, DownGlyph);
    } else if UpGlyph in e.text {
      PercentRejectsChar(e, UpGlyph);
    } else {
      PercentRejectsChar(e, ',');
    }
  }

  /**
   * On a percent value that parsed, the down glyph never decides anything:
   * it is negated exactly when its text has no leading minus and its first
   * class is the down class.
   */
  lemma PercentSignRule(e: Element, v: real)
    requires PercentValue(e) == Some(v)
    ensures PercentNegated(e) <==> !StartsWith(PercentText(e), '-') && FirstClass(e) == DownClass
  {
    if DownGlyph in e.text {
      PercentRejectsMarkers(e);
    }
  }

  /** For a percent written without a minus sign the first class alone decides the sign. */
  lemma PercentDirection(e: Element, v: real)
    requires '-' !in e.text && PercentValue(e) == Some(v)
    ensures FirstClass(e) == DownClass ==> v <= 0.0
    ensures FirstClass(e) != DownClass ==> 0.0 <= v
  {
    PercentSignRule(e, v);
    StripMember(e.text, '-');
    RemoveMember(Strip(e.text), {'%'}, '-');
    ParseFloatNoMinus(PercentText(e));
  }

  /** An unsigned numeral has no space, sign, glyph, separator or percent sign. */
  lemma {:induction false} UnsignedNumeralChars(u: string, m: real)
    requires ParseUnsigned(u) == Some(m)
    ensures |u| > 0 && !IsSpace(u[0]) && u[0] != '-' && !IsSpace(u[|u| - 1])
    ensures DownGlyph !in u && '-' !in u
    ensures Remove(u, ChangeDrops) == u && Remove(u, {'%'}) == u
  {
    RemoveAbsent(u, ChangeDrops);
    RemoveAbsent(u, {'%'});
  }

  /** An unsigned numeral reads as itself, and with a minus in front as its negation. */
  lemma UnsignedNumeralValue(u: string, m: real)
    requires ParseUnsigned(u) == Some(m)
    ensures ParseFloat(u) == Some(m) && ParseFloat("-" + u) == Some(-m)
  {
    StripPlain(u);
    StripPlain("-" + u);
    assert ("-" + u)[1..] == u;
  }

  /** A minus sign in front of a clean numeral survives the change's removals. */
  lemma SignedNumeralClean(u: string)
    requires Remove(u, ChangeDrops) == u
    ensures Remove("-" + u, ChangeDrops) == "-" + u
  {
    var signed := "-" + u;
    assert signed[0] == '-' && signed[1..] == u;
    assert '-' !in ChangeDrops;
  }

  /** Dropping one marker character from between two clean pieces of text. */
  lemma RemoveMarker(a: string, g: char, b: string, drop: set<char>)
    requires g in drop && a == Remove(a, drop) && b == Remove(b, drop)
    ensures Remove(a + [g] + b, drop) == a + b
  {
    RemoveAppend(a + [g], b, drop);
    RemoveAppend(a, [g], drop);
    assert Remove([g], drop) == [];
  }

  /** The change text "u▼" is kept by stripping, is marked falling and reads as the numeral "u". */
  lemma TrailingGlyphText(u: string, m: real, classes: seq<string>)
    requires ParseUnsigned(u) == Some(m)
    ensures var e := Element(u + [DownGlyph], classes);
      ChangeNegated(e) && ChangeNumeral(e) == u
  {
    UnsignedNumeralChars(u, m);
    var e := Element(u + [DownGlyph], classes);
    assert e.text[0] == u[0];
    StripPlain(e.text);
    RemoveMarker(u, DownGlyph, [], ChangeDrops);
    assert u + [DownGlyph] + [] == e.text && u + [] == u;
    assert DownGlyph in ChangeText(e) && !StartsWith(ChangeText(e), '-');
  }

  /** A down glyph after an unsigned number negates it, whatever the classes. */
  lemma ChangeTrailingDownGlyph(u: string, m: real, classes: seq<string>)
    requires ParseUnsigned(u) == Some(m)
    ensures var r := ChangeValue(Element(u + [DownGlyph], classes)); r.Some? && r.value == -m
  {
    var e := Element(u + [DownGlyph], classes);
    assert ChangeNegated(e) && ChangeNumeral(e) == u by {
      TrailingGlyphText(u, m, classes);
    }
    assert ParseFloat(u).Some? && ParseFloat(u).value == m by {
      UnsignedNumeralValue(u, m);
    }
    NegatedChange(e, u, -m);
  }


  /** The change text "-u▼" is kept by stripping and reads as the numeral "-u". */
  lemma MinusThenGlyphText(u: string, m: real)
    requires ParseUnsigned(u) == Some(m)
    ensures var e := Element(("-" + u) + [DownGlyph], [DownClass]);
      !ChangeNegated(e) && ChangeNumeral(e) == "-" + u
  {
    UnsignedNumeralChars(u, m);
    var signed := "-" + u;
    var e := Element(signed + [DownGlyph], [DownClass]);
    assert e.text[0] == '-' && e.text[|e.text| - 1] == DownGlyph;
    StripPlain(e.text);
    SignedNumeralClean(u);
    RemoveMarker(signed, DownGlyph, [], ChangeDrops);
    assert signed + [DownGlyph] + [] == e.text && signed + [] == signed;
  }

  /** A signed number with both down markers keeps its sign: no double negation. */
  lemma ChangeMinusWithDownMarkers(u: string, m: real)
    requires ParseUnsigned(u) == Some(m)
    ensures ChangeValue(Element(("-" + u) + [DownGlyph], [DownClass])) == Some(-m)
  {
    MinusThenGlyphText(u, m);
    UnsignedNumeralValue(u, m);
    var e := Element(("-" + u) + [DownGlyph], [DownClass]);
    assert ParseFloat(ChangeNumeral(e)) == Some(-m);
  }

  /** The change text "▼-u" is kept by stripping, carries the glyph and reads as the numeral "-u". */
  lemma GlyphThenMinusText(u: string, m: real, classes: seq<string>)
    requires ParseUnsigned(u) == Some(m)
    ensures var e := Element([DownGlyph] + ("-" + u), classes);
      ChangeNegated(e) && ChangeNumeral(e) == "-" + u
  {
    UnsignedNumeralChars(u, m);
    var signed := "-" + u;
    var e := Element([DownGlyph] + signed, classes);
    assert e.text[0] == DownGlyph && e.text[|e.text| - 1] == u[|u| - 1];
    StripPlain(e.text);
    SignedNumeralClean(u);
    RemoveMarker([], DownGlyph, signed, ChangeDrops);
    assert [] + [DownGlyph] + signed == e.text && [] + signed == signed;
    assert DownGlyph in ChangeText(e) && !StartsWith(ChangeText(e), '-');
  }

  /** As written, a down glyph placed before a minus sign negates a second time. */
  lemma ChangeGlyphBeforeMinus(u: string, m: real, classes: seq<string>)
    requires ParseUnsigned(u) == Some(m)
    ensures var r := ChangeValue(Element([DownGlyph] + ("-" + u), classes)); r.Some? && r.value == m
  {
    var e := Element([DownGlyph] + ("-" + u), classes);
    var n := "-" + u;
    assert ChangeNegated(e) && ChangeNumeral(e) == n by {
      GlyphThenMinusText(u, m, classes);
    }
    assert ParseFloat(n).Some? && ParseFloat(n).value == -m by {
      UnsignedNumeralValue(u, m);
    }
    NegatedChange(e, n, m);
  }

  /** A negated change whose numeral reads `-w` is worth `w`. */
  lemma NegatedChange(e: Element, n: string, w: real)
    requires ChangeNegated(e) && ChangeNumeral(e) == n
    requires ParseFloat(n).Some? && ParseFloat(n).value == -w
    ensures ChangeValue(e).Some? && ChangeValue(e).value == w
  {
  }

  /** The percent text "u%" with first class `clr-gr` is marked falling and reads as "u". */
  lemma DownClassPercentText(u: string, m: real, more: seq<string>)
    requires ParseUnsigned(u) == Some(m)
    ensures var e := Element(u + "%", [DownClass] + more);
      PercentNegated(e) && PercentText(e) == u
  {
    UnsignedNumeralChars(u, m);
    var e := Element(u + "%", [DownClass] + more);
    assert e.text[0] == u[0];
    StripPlain(e.text);
    RemoveMarker(u, '%', [], {'%'});
    assert u + ['%'] + [] == e.text && u + [] == u;
    assert FirstClass(e) == DownClass;
  }

  /** A negated percentage whose text reads `-w` is worth `w`. */
  lemma NegatedPercent(e: Element, n: string, w: real)
    requires PercentNegated(e) && PercentText(e) == n
    requires ParseFloat(n).Some? && ParseFloat(n).value == -w
    ensures PercentValue(e).Some? && PercentValue(e).value == w
  {
  }

  /** A percentage marked falling only by its first class is negated. */
  lemma PercentDownClass(u: string, m: real, more: seq<string>)
    requires ParseUnsigned(u) == Some(m)
    ensures var r := PercentValue(Element(u + "%", [DownClass] + more)); r.Some? && r.value == -m
  {
    var e := Element(u + "%", [DownClass] + more);
    assert PercentNegated(e) && PercentText(e) == u by {
      DownClassPercentText(u, m, more);
    }
    assert ParseFloat(u).Some? && ParseFloat(u).value == m by {
      UnsignedNumeralValue(u, m);
    }
    NegatedPercent(e, u, -m);
  }

}
