/**
 * Statutes: hierarchical citations `chapter.subchapter(section)(subsection)`,
 * e.g. `653.412(5)(c)`, with their equality and their canonical text.
 */
module Statutes {
  import opened Wrappers
  import Decimal

  /**
   * A statute citation. `subchapter` and `section` are optional integers and
   * `subsection` an optional string; `None` stands for a component that was
   * not given. The subchapter must be passed (it may be `None`), the section
   * and subsection default to `None`.
   */
  datatype Statute = Statute(
    chapter: nat,
    subchapter: Option<nat>,
    section: Option<nat> := None,
    subsection: Option<string> := None)
  {
    /**
     * The statute with a falsy section or subsection replaced by `None`.
     * The subchapter is kept as given: `None` and `Some(0)` stay distinct.
     */
    function Normalized(): (n: Statute)
      ensures n.chapter == chapter && n.subchapter == subchapter
      ensures n.section.None? <==> FalsyNat(section)
      ensures n.subsection.None? <==> FalsyText(subsection)
      ensures n.section.Some? ==> n.section == section
      ensures n.subsection.Some? ==> n.subsection == subsection
    {
      Statute(chapter, subchapter,
              if FalsyNat(section) then None else section,
              if FalsyText(subsection) then None else subsection)
    }

    /**
     * `__eq__`: chapters and subchapters must be equal; sections match when
     * both are falsy or both are equal, and so do subsections. This is plain
     * equality of the normalized statutes, hence an equivalence relation, and
     * it does not let a citation without a section match one that has one.
     */
    function Equals(other: Statute): (r: bool)
      ensures r <==> Normalized() == other.Normalized()
      ensures r ==> chapter == other.chapter && subchapter == other.subchapter
    {
      && chapter == other.chapter
      && subchapter == other.subchapter
      && ((FalsyNat(section) && FalsyNat(other.section)) || section == other.section)
      && ((FalsyText(subsection) && FalsyText(other.subsection)) || subsection == other.subsection)
    }

    /**
     * `.` and the subchapter padded to three digits, present only when the
     * subchapter is truthy: the digits after the `.` denote the subchapter,
     * and only a padded (three-digit) group starts with `0`.
     */
    function SubchapterText(): (t: string)
      ensures t == [] <==> FalsyNat(subchapter)
      ensures t != [] ==> t[0] == '.' && |t| >= 4
      ensures t != [] ==> Decimal.AllDigits(t[1..]) && Decimal.Value(t[1..]) == subchapter.value
      ensures |t| > 4 ==> t[1] != '0'
    {
      if FalsyNat(subchapter) then ""
      else
        var digits := Decimal.FromNat(subchapter.value);
        var padded := Decimal.ZeroPad(digits, 3);
        var t := "." + padded;
        assert t[1..] == padded;
        assert |t| > 4 ==> padded == digits;
        t
    }

    /** `(section)`, present only when the section is truthy: the section in decimal, no leading zero. */
    function SectionText(): (t: string)
      ensures t == [] <==> FalsyNat(section)
      ensures t != [] ==> t[0] == '(' && t[|t| - 1] == ')' && |t| > 2
      ensures t != [] ==> Decimal.AllDigits(t[1..|t| - 1]) && Decimal.Value(t[1..|t| - 1]) == section.value
      ensures t != [] ==> t[1] != '0'
    {
      if FalsyNat(section) then ""
      else
        var digits := Decimal.FromNat(section.value);
        var t := "(" + digits + ")";
        assert t[1..|t| - 1] == digits;
        t
    }

    /** `(subsection)`, present only when the subsection is truthy: the subsection text in parentheses. */
    function SubsectionText(): (t: string)
      ensures t == [] <==> FalsyText(subsection)
      ensures t != [] ==> t[0] == '(' && t[|t| - 1] == ')'
      ensures t != [] ==> t[1..|t| - 1] == subsection.value
    {
      if FalsyText(subsection) then ""
      else
        var t := "(" + subsection.value + ")";
        assert t[1..|t| - 1] == subsection.value;
        t
    }

    /** The section and subsection parts together. */
    function Rest(): (t: string)
      ensures t == [] || t[0] == '('
      ensures t == [] <==> FalsyNat(section) && FalsyText(subsection)
    {
      SectionText() + SubsectionText()
    }

    /** What follows the chapter's digits in the canonical text. */
    function Suffix(): (t: string)
      ensures t == SubchapterText() + SectionText() + SubsectionText()
      ensures t == [] || t[0] == '.' || t[0] == '('
      ensures (t != [] && t[0] == '.') <==> !FalsyNat(subchapter)
      ensures t == [] <==> FalsyNat(subchapter) && FalsyNat(section) && FalsyText(subsection)
    {
      var d, e, f := SubchapterText(), SectionText(), SubsectionText();
      SuffixShape(d, e, f);
      d + (e + f)
    }

    /**
     * `__str__`: the chapter in decimal, then each optional part that is
     * truthy, in the order subchapter, section, subsection.
     */
    function ToString(): (r: string)
      ensures r == Decimal.FromNat(chapter) + SubchapterText() + SectionText() + SubsectionText()
      ensures Decimal.FromNat(chapter) <= r
      ensures r == Decimal.FromNat(chapter) <==>
                FalsyNat(subchapter) && FalsyNat(section) && FalsyText(subsection)
      ensures |r| > |Decimal.FromNat(chapter)| ==>
                (r[|Decimal.FromNat(chapter)|] == '.' <==> !FalsyNat(subchapter))
    {
      var c, t := Decimal.FromNat(chapter), Suffix();
      ChapterThenSuffix(c, SubchapterText(), SectionText(), SubsectionText(), t);
      c + t
    }
  }

  /** A suffix assembled from a `.` part and two `(` parts: its first character tells which part leads. */
  lemma SuffixShape(d: string, e: string, f: string)
    requires d == [] || d[0] == '.'
    requires e == [] || e[0] == '('
    requires f == [] || f[0] == '('
    ensures d + (e + f) == d + e + f
    ensures var t := d + (e + f);
      && (t == [] || t[0] == '.' || t[0] == '(')
      && ((t != [] && t[0] == '.') <==> d != [])
      && (t == [] <==> d == [] && e == [] && f == [])
  {
  }

  /** The chapter's digits followed by a suffix assembled from three parts. */
  lemma ChapterThenSuffix(c: string, d: string, e: string, f: string, t: string)
    requires t == d + e + f
    ensures c + t == c + d + e + f
    ensures c <= c + t
    ensures |c + t| > |c| ==> (c + t)[|c|] == t[0]
  {
  }

  /** Statute equality is reflexive. */
  lemma EqualsReflexive(a: Statute)
    ensures a.Equals(a)
  {
  }

  /** Statute equality is symmetric. */
  lemma EqualsSymmetric(a: Statute, b: Statute)
    ensures a.Equals(b) <==> b.Equals(a)
  {
  }

  /** Statute equality is transitive. */
  lemma EqualsTransitive(a: Statute, b: Statute, c: Statute)
    requires a.Equals(b) && b.Equals(c)
    ensures a.Equals(c)
  {
  }

  /** A citation without a section never equals one with a nonzero section. */
  lemma MissingSectionNeverMatches(a: Statute, b: Statute)
    requires FalsyNat(a.section) && !FalsyNat(b.section)
    ensures !a.Equals(b) && !b.Equals(a)
  {
  }

  /** The same holds one level down, for subsections. */
  lemma MissingSubsectionNeverMatches(a: Statute, b: Statute)
    requires FalsyText(a.subsection) && !FalsyText(b.subsection)
    ensures !a.Equals(b) && !b.Equals(a)
  {
  }

  /**
   * There is no partial match: `653.412` differs from `653.412(5)(c)`, which
   * differs from `653.412(5)(d)`; and a missing subchapter differs from a
   * zero subchapter.
   */
  lemma EqualsExamples()
    ensures !Statute(653, Some(412), None, None).Equals(Statute(653, Some(412), Some(5), Some("c")))
    ensures !Statute(653, Some(412), Some(5), Some("c")).Equals(Statute(653, Some(412), Some(5), Some("d")))
    ensures !Statute(653, None, None, None).Equals(Statute(653, Some(0), None, None))
    ensures Statute(653, Some(412), Some(0), Some("")).Equals(Statute(653, Some(412), None, None))
  {
  }

  /** Equal statutes have the same canonical text. */
  lemma {:induction false} EqualsImpliesSameText(a: Statute, b: Statute)
    requires a.Equals(b)
    ensures a.ToString() == b.ToString()
  {
    assert a.SectionText() == b.SectionText();
    assert a.SubsectionText() == b.SubsectionText();
  }

  /**
   * The converse fails: a missing and a zero subchapter both render as the
   * bare chapter, but the statutes are not equal.
   */
  lemma SameTextDoesNotImplyEquals()
    ensures Statute(653, None, None, None).ToString() == Statute(653, Some(0), None, None).ToString()
    ensures !Statute(653, None, None, None).Equals(Statute(653, Some(0), None, None))
  {
  }

  /**
   * The canonical text determines the chapter and the subchapter, up to
   * reading a falsy subchapter as absent.
   */
  lemma {:induction false} TextDeterminesChapterAndSubchapter(a: Statute, b: Statute)
    requires a.ToString() == b.ToString()
    ensures a.chapter == b.chapter
    ensures FalsyNat(a.subchapter) <==> FalsyNat(b.subchapter)
    ensures !FalsyNat(a.subchapter) ==> a.subchapter == b.subchapter
  {
    var sa, sb := a.Suffix(), b.Suffix();
    Decimal.DigitsPrefixUnique(Decimal.FromNat(a.chapter), sa, Decimal.FromNat(b.chapter), sb);
    Decimal.FromNatInjective(a.chapter, b.chapter);
    if !FalsyNat(a.subchapter) {
      SubchapterDigitsUnique(a, b);
    }
  }

  /**
   * The text does not determine the section: a section `5` and a subsection
   * `"5"` both render as `(5)` after the chapter.
   */
  lemma SectionAndSubsectionCanCollide()
    ensures Statute(653, None, Some(5), None).ToString() == Statute(653, None, None, Some("5")).ToString()
    ensures !Statute(653, None, Some(5), None).Equals(Statute(653, None, None, Some("5")))
  {
    ExampleDigits();
  }

  /** A text made of a one-character lead-in, a body and a tail is the body and tail after its first character. */
  lemma AfterLeadIn(s: string, d: string, p: string, t: string)
    requires s == d + t && d == ['.'] + p
    ensures s[1..] == p + t
  {
    assert s == ['.'] + (p + t);
  }

  /** After its leading `.`, the suffix of a truthy subchapter is the padded digits, then the rest. */
  lemma SuffixWithSubchapter(a: Statute)
    requires !FalsyNat(a.subchapter)
    ensures a.Suffix()[1..] == Decimal.ZeroPad(Decimal.FromNat(a.subchapter.value), 3) + a.Rest()
  {
    var p := Decimal.ZeroPad(Decimal.FromNat(a.subchapter.value), 3);
    var d := a.SubchapterText();
    assert d == ['.'] + p;
    AfterLeadIn(a.Suffix(), d, p, a.Rest());
  }

  /** Two suffixes that both open with a subchapter and agree carry the same subchapter. */
  lemma SubchapterDigitsUnique(a: Statute, b: Statute)
    requires !FalsyNat(a.subchapter) && !FalsyNat(b.subchapter)
    requires a.Suffix() == b.Suffix()
    ensures a.subchapter == b.subchapter
  {
    SuffixWithSubchapter(a);
    SuffixWithSubchapter(b);
    Decimal.PaddedPrefixUnique(a.subchapter.value, b.subchapter.value, a.Rest(), b.Rest());
  }

  /** A rendering assembled from the texts of its four parts. */
  lemma ToStringFromParts(st: Statute, c: string, d: string, e: string, f: string)
    requires Decimal.FromNat(st.chapter) == c
    requires st.SubchapterText() == d && st.SectionText() == e && st.SubsectionText() == f
    ensures st.ToString() == c + d + e + f
  {
    assert st.Rest() == e + f;
    assert st.Suffix() == d + (e + f);
  }

  /** The subchapter part of a truthy subchapter whose digits are already at least three long. */
  lemma SubchapterPart(st: Statute, digits: string)
    requires st.subchapter.Some? && st.subchapter.value != 0
    requires Decimal.FromNat(st.subchapter.value) == digits && |digits| >= 3
    ensures st.SubchapterText() == "." + digits
  {
  }

  /** The subchapter part of a one-digit subchapter: two zeros of padding. */
  lemma OneDigitSubchapterPart(st: Statute, digit: char)
    requires st.subchapter.Some? && st.subchapter.value != 0
    requires Decimal.FromNat(st.subchapter.value) == [digit]
    ensures st.SubchapterText() == ['.', '0', '0', digit]
  {
    assert Decimal.ZeroPad([digit], 3) == Decimal.Zeros(2) + [digit];
    assert Decimal.Zeros(2) == ['0', '0'];
  }

  /** The section part of a truthy section. */
  lemma SectionPart(st: Statute, digits: string)
    requires st.section.Some? && st.section.value != 0
    requires Decimal.FromNat(st.section.value) == digits
    ensures st.SectionText() == "(" + digits + ")"
  {
  }

  /** The numbers of the worked examples in decimal. */
  lemma ExampleDigits()
    ensures Decimal.FromNat(653) == "653"
    ensures Decimal.FromNat(412) == "412"
    ensures Decimal.FromNat(5) == "5"
  {
    assert Decimal.FromNat(6) == "6";
    assert Decimal.FromNat(65) == "65";
    assert Decimal.FromNat(4) == "4";
    assert Decimal.FromNat(41) == "41";
  }

  /** Worked renderings; the first is the citation the class documentation uses. */
  lemma ToStringFullCitation()
    ensures Statute(653, Some(412), Some(5), Some("c")).ToString() == "653.412(5)(c)"
  {
    var st := Statute(653, Some(412), Some(5), Some("c"));
    ExampleDigits();
    SubchapterPart(st, "412");
    SectionPart(st, "5");
    ToStringFromParts(st, "653", ".412", "(5)", "(c)");
  }

  lemma ToStringSubchapterOnly()
    ensures Statute(653, Some(412)).ToString() == "653.412"
  {
    var st := Statute(653, Some(412));
    ExampleDigits();
    SubchapterPart(st, "412");
    ToStringFromParts(st, "653", ".412", "", "");
  }

  lemma ToStringPaddedSubchapter()
    ensures Statute(653, Some(5), None, None).ToString() == "653.005"
  {
    var st := Statute(653, Some(5), None, None);
    ExampleDigits();
    OneDigitSubchapterPart(st, '5');
    ToStringFromParts(st, "653", ".005", "", "");
  }

  lemma ToStringChapterOnly()
    ensures Statute(653, None, None, None).ToString() == "653"
  {
    ExampleDigits();
  }
}
