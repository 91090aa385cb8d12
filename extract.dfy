/**
 * scripts/extract-content.ts: read the saved root page and pick out its labelled sections and
 * its paragraphs. The HTML parser is outside the model: the page arrives as the elements matched
 * by `section, .section, [id]` (each with its `id` attribute, if any, and its text) and the texts
 * of its `<p>` elements, both in document order.
 */
module Extract {
  import opened Wrappers
  import opened Text

  datatype Element = Element(id: Option<string>, text: string)

  /** The parsed page: matched elements, paragraph texts, the `<title>` text and the first `<h1>` text. */
  datatype ParsedPage = ParsedPage(elements: seq<Element>, paragraphTexts: seq<string>, title: string, mainHeading: string)

  /** What the script prints. */
  datatype Report = Report(sectionIds: set<string>, paragraphs: seq<string>, title: string, mainHeading: string)

  const MinSectionLength := 50
  const MaxSectionLength := 500
  const MinParagraphLength := 20
  const ShownParagraphs := 5

  /** `id && text.length > 50`, with the text trimmed. */
  predicate IsSection(e: Element) {
    e.id.Some? && e.id.value != "" && |Trim(e.text)| > MinSectionLength
  }

  /**
   * `text.substring(0, 500)` of the trimmed text: its first min(500, length) characters. It
   * never starts with white space; it ends without white space when nothing was cut.
   */
  function SectionText(e: Element): (r: string)
    ensures var t := Trim(e.text);
            && |r| == Min(MaxSectionLength, |t|) && StartsWith(t, r)
            && (r == [] || !IsSpace(r[0]))
            && (|t| <= MaxSectionLength ==> r == t && (r == [] || !IsSpace(r[|r| - 1])))
    ensures IsSection(e) ==> MinSectionLength < |r| <= MaxSectionLength
  {
    var t := Trim(e.text);
    t[..Min(MaxSectionLength, |t|)]
  }

  /** The one key a plain object does not store as its own property. */
  const ProtoKey := "__proto__"

  /**
   * `obj[k] = v` on a plain object (`{}`) with a string `v`: the key is set, except `__proto__`,
   * whose inherited setter ignores a value that is not an object, so no property appears.
   */
  function SetProperty(obj: map<string, string>, k: string, v: string): map<string, string> {
    if k == ProtoKey then obj else obj[k := v]
  }

  /** The `sections` record after the `each` loop over `els`: later elements overwrite earlier ones. */
  function Sections(els: seq<Element>): (r: map<string, string>)
    ensures forall k :: k in r ==> k != "" && k != ProtoKey && MinSectionLength < |r[k]| <= MaxSectionLength
  {
    if els == [] then map[]
    else
      var m := Sections(els[..|els| - 1]);
      var e := els[|els| - 1];
      if IsSection(e) then SetProperty(m, e.id.value, SectionText(e)) else m
  }

  /** The `sections` loop. */
  method ExtractSections(els: seq<Element>) returns (sections: map<string, string>)
    ensures sections == Sections(els)
  {
    sections := map[];
    for i := 0 to |els|
      invariant sections == Sections(els[..i])
    {
      assert els[..i + 1][..i] == els[..i];
      var id := els[i].id;
      var text := Trim(els[i].text);
      if id.Some? && id.value != "" && |text| > MinSectionLength {
        sections := SetProperty(sections, id.value, text[..Min(MaxSectionLength, |text|)]);
      }
    }
    assert els[..|els|] == els;
  }

  /** Some element of `els` qualifies as a section under id `k`. */
  predicate NamesSection(els: seq<Element>, k: string) {
    exists j :: 0 <= j < |els| && IsSection(els[j]) && els[j].id.value == k
  }

  /**
   * A key is present exactly when some matched element with that non-empty id has enough text,
   * the id `__proto__` excepted.
   */
  lemma SectionKeys(els: seq<Element>, k: string)
    ensures k in Sections(els) <==> k != ProtoKey && NamesSection(els, k)
  {
    if k in Sections(els) {
      KeyIsNamed(els, k);
    }
    if k != ProtoKey && NamesSection(els, k) {
      var j :| 0 <= j < |els| && IsSection(els[j]) && els[j].id.value == k;
      NamedIsKey(els, j);
    }
  }

  lemma {:induction false} KeyIsNamed(els: seq<Element>, k: string)
    requires k in Sections(els)
    ensures k != ProtoKey && NamesSection(els, k)
  {
    var init := els[..|els| - 1];
    var e := els[|els| - 1];
    if !(IsSection(e) && e.id.value == k && k != ProtoKey) {
      KeyIsNamed(init, k);
      var j :| 0 <= j < |init| && IsSection(init[j]) && init[j].id.value == k;
      assert els[j] == init[j];
    }
  }

  lemma {:induction false} NamedIsKey(els: seq<Element>, j: nat)
    requires j < |els| && IsSection(els[j]) && els[j].id.value != ProtoKey
    ensures els[j].id.value in Sections(els)
  {
    var init := els[..|els| - 1];
    if j < |init| {
      assert init[j] == els[j];
      NamedIsKey(init, j);
    }
  }

  /**
   * The value under an id comes from the LAST qualifying element with that id: an element that
   * qualifies and has no qualifying successor with the same id supplies the stored text.
   */
  lemma {:induction false} SectionLastWins(els: seq<Element>, j: nat)
    requires j < |els| && IsSection(els[j]) && els[j].id.value != ProtoKey
    requires forall j' :: j < j' < |els| && IsSection(els[j']) ==> els[j'].id != els[j].id
    ensures els[j].id.value in Sections(els) && Sections(els)[els[j].id.value] == SectionText(els[j])
  {
    var init := els[..|els| - 1];
    if j < |els| - 1 {
      assert init[j] == els[j];
      SectionLastWins(init, j);
    }
  }

  /** Every stored value is the cut trimmed text of a qualifying element with that id. */
  lemma {:induction false} SectionValues(els: seq<Element>, k: string)
    requires k in Sections(els)
    ensures exists j :: 0 <= j < |els| && IsSection(els[j]) && els[j].id.value == k
                        && Sections(els)[k] == SectionText(els[j])
  {
    var init := els[..|els| - 1];
    var e := els[|els| - 1];
    if !(IsSection(e) && e.id.value == k && k != ProtoKey) {
      SectionValues(init, k);
      var j :| 0 <= j < |init| && IsSection(init[j]) && init[j].id.value == k && Sections(init)[k] == SectionText(init[j]);
      assert els[j] == init[j];
    }
  }

  /** A kept paragraph: longer than 20 characters, no white space at either end. */
  predicate IsParagraph(p: string) {
    |p| > MinParagraphLength && !IsSpace(p[0]) && !IsSpace(p[|p| - 1])
  }

  /** `paragraphs` after the `$('p').each` loop: the trimmed texts longer than 20 characters, in order. */
  function Paragraphs(texts: seq<string>): (r: seq<string>)
    ensures |r| <= |texts|
  {
    if texts == [] then []
    else
      var t := Trim(texts[|texts| - 1]);
      Paragraphs(texts[..|texts| - 1]) + (if |t| > MinParagraphLength then [t] else [])
  }

  /** The paragraphs loop. */
  method ExtractParagraphs(texts: seq<string>) returns (paragraphs: seq<string>)
    ensures paragraphs == Paragraphs(texts)
  {
    paragraphs := [];
    for i := 0 to |texts|
      invariant paragraphs == Paragraphs(texts[..i])
    {
      assert texts[..i + 1][..i] == texts[..i];
      var text := Trim(texts[i]);
      if |text| > MinParagraphLength {
        paragraphs := paragraphs + [text];
      }
    }
    assert texts[..|texts|] == texts;
  }

  /** Every kept paragraph is longer than 20 characters and has no white space at either end. */
  lemma ParagraphsAreTrimmed(texts: seq<string>, p: string)
    requires p in Paragraphs(texts)
    ensures IsParagraph(p)
  {
    KeptIsTrimmed(texts, p);
    var j :| 0 <= j < |texts| && Trim(texts[j]) == p;
    TrimmedParagraph(texts[j]);
  }

  lemma TrimmedParagraph(s: string)
    requires |Trim(s)| > MinParagraphLength
    ensures IsParagraph(Trim(s))
  {
  }

  /** Document order: the paragraphs of two consecutive runs of `<p>` texts are concatenated. */
  lemma {:induction false} ParagraphsAppend(a: seq<string>, b: seq<string>)
    ensures Paragraphs(a + b) == Paragraphs(a) + Paragraphs(b)
    decreases |b|
  {
    if b == [] {
      assert a + b == a;
    } else {
      var b' := b[..|b| - 1];
      assert (a + b)[..|a + b| - 1] == a + b';
      assert (a + b)[|a + b| - 1] == b[|b| - 1];
      ParagraphsAppend(a, b');
    }
  }

  /** Some `<p>` text trims to `t`. */
  predicate TrimsTo(texts: seq<string>, t: string) {
    exists j :: 0 <= j < |texts| && Trim(texts[j]) == t
  }

  /** A text is kept exactly when it is the trimmed form of some `<p>` text and is long enough. */
  lemma {:induction false} ParagraphsMembers(texts: seq<string>, t: string)
    ensures t in Paragraphs(texts) <==> |t| > MinParagraphLength && TrimsTo(texts, t)
  {
    if t in Paragraphs(texts) {
      KeptIsTrimmed(texts, t);
    }
    if |t| > MinParagraphLength && TrimsTo(texts, t) {
      var j :| 0 <= j < |texts| && Trim(texts[j]) == t;
      TrimmedIsKept(texts, j);
    }
  }

  lemma {:induction false} KeptIsTrimmed(texts: seq<string>, t: string)
    requires t in Paragraphs(texts)
    ensures |t| > MinParagraphLength && TrimsTo(texts, t)
  {
    var init := texts[..|texts| - 1];
    var last := Trim(texts[|texts| - 1]);
    assert Paragraphs(texts) == Paragraphs(init) + (if |last| > MinParagraphLength then [last] else []);
    if t in Paragraphs(init) {
      KeptIsTrimmed(init, t);
      var j :| 0 <= j < |init| && Trim(init[j]) == t;
      assert texts[j] == init[j];
    } else {
      assert t == last;
    }
  }

  lemma {:induction false} TrimmedIsKept(texts: seq<string>, j: nat)
    requires j < |texts| && |Trim(texts[j])| > MinParagraphLength
    ensures Trim(texts[j]) in Paragraphs(texts)
  {
    var init := texts[..|texts| - 1];
    if j < |init| {
      assert init[j] == texts[j];
      TrimmedIsKept(init, j);
      assert Paragraphs(texts)[..|Paragraphs(init)|] == Paragraphs(init);
    } else {
      assert Paragraphs(texts) == Paragraphs(init) + [Trim(texts[j])];
    }
  }

  /** The script: both loops, then the printed report (section ids, first five paragraphs, title, heading). */
  method ExtractContent(page: ParsedPage) returns (report: Report)
    ensures report.sectionIds == Sections(page.elements).Keys
    ensures |report.paragraphs| == Min(ShownParagraphs, |Paragraphs(page.paragraphTexts)|)
    ensures report.paragraphs == Paragraphs(page.paragraphTexts)[..|report.paragraphs|]
  {
    var sections := ExtractSections(page.elements);
    var paragraphs := ExtractParagraphs(page.paragraphTexts);
    var shown := if |paragraphs| <= ShownParagraphs then paragraphs else paragraphs[..ShownParagraphs];
    report := Report(sections.Keys, shown, page.title, page.mainHeading);
  }
}
