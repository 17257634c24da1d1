/** The response segmenter: `extract_section` cuts one named section out of
    the model's reply by a start tag and an end tag. */
module Segmenter {
  import opened PyText

  /** The placeholder for a section whose start tag is absent. */
  const NotGenerated: string := "Content not generated."

  /** The end tag that means "read to the end of the reply". */
  const EndSentinel: string := "END"

  /** The raw slice `extract_section` trims: from just after the first start
      tag to the first end tag, or to the end of the reply when the end tag
      is the sentinel or absent. */
  function RawSection(text: string, startTag: string, endTag: string): (r: string)
    requires Contains(text, startTag)
  {
    var start := Find(text, startTag) + |startTag|;
    if endTag == EndSentinel then text[start..]
    else
      var end := Find(text, endTag);
      if end != -1 then Slice(text, start, end) else text[start..]
  }

  /** `extract_section(text, start_tag, end_tag)`. Both searches start at the
      beginning of `text`: an end tag that occurs before the start tag yields
      an empty section. */
  function ExtractSection(text: string, startTag: string, endTag: string): (r: string)
    ensures IsTrimmed(r)
  {
    if !In(startTag, text) then NotGenerated else Strip(RawSection(text, startTag, endTag))
  }

  /** A reply without the start tag gives the placeholder. */
  lemma MissingStartTag(text: string, startTag: string, endTag: string)
    requires !Contains(text, startTag)
    ensures ExtractSection(text, startTag, endTag) == NotGenerated
  {
  }

  /** The two ways a found section is cut, given where `Find` puts the tags. */
  lemma CutToEnd(text: string, startTag: string, endTag: string, i: int)
    requires Find(text, startTag) == i >= 0
    requires endTag == EndSentinel || Find(text, endTag) == -1
    ensures ExtractSection(text, startTag, endTag) == Strip(text[i + |startTag|..])
  {
    assert RawSection(text, startTag, endTag) == text[i + |startTag|..];
  }

  lemma CutAtEndTag(text: string, startTag: string, endTag: string, i: int, j: int)
    requires Find(text, startTag) == i >= 0
    requires endTag != EndSentinel && Find(text, endTag) == j >= 0
    ensures ExtractSection(text, startTag, endTag) == Strip(Slice(text, i + |startTag|, j))
  {
    assert RawSection(text, startTag, endTag) == Slice(text, i + |startTag|, j);
  }

  /** With the sentinel as end tag, the section is everything after the
      first start tag, trimmed; a literal "END" in the reply is not looked for. */
  lemma SentinelReadsToEnd(text: string, startTag: string, i: int)
    requires IsFirstOccurrence(text, startTag, i)
    ensures ExtractSection(text, startTag, EndSentinel) == Strip(text[i + |startTag|..])
  {
    FindIsFirstOccurrence(text, startTag, i);
    CutToEnd(text, startTag, EndSentinel, i);
  }

  /** An end tag missing from the reply also reads to the end. */
  lemma MissingEndTagReadsToEnd(text: string, startTag: string, endTag: string, i: int)
    requires IsFirstOccurrence(text, startTag, i)
    requires !Contains(text, endTag)
    ensures ExtractSection(text, startTag, endTag) == Strip(text[i + |startTag|..])
  {
    FindIsFirstOccurrence(text, startTag, i);
    CutToEnd(text, startTag, endTag, i);
  }

  /** When the first end tag lies after the first start tag, the section is
      the trimmed text between them. */
  lemma SectionBetweenTags(text: string, startTag: string, endTag: string, i: int, j: int)
    requires IsFirstOccurrence(text, startTag, i)
    requires endTag != EndSentinel && IsFirstOccurrence(text, endTag, j)
    requires i + |startTag| <= j
    ensures ExtractSection(text, startTag, endTag) == Strip(text[i + |startTag|..j])
  {
    FindIsFirstOccurrence(text, startTag, i);
    FindIsFirstOccurrence(text, endTag, j);
    CutAtEndTag(text, startTag, endTag, i, j);
  }

  /** The end tag is searched from the start of the reply, not from after the
      start tag: any occurrence of it that begins no later than the end of the
      first start tag makes the section empty. */
  lemma EarlyEndTagGivesEmptySection(text: string, startTag: string, endTag: string, i: int, j: int)
    requires IsFirstOccurrence(text, startTag, i)
    requires endTag != EndSentinel && OccursAt(text, endTag, j)
    requires j <= i + |startTag|
    ensures ExtractSection(text, startTag, endTag) == []
  {
    FindIsFirstOccurrence(text, startTag, i);
    FindAtMost(text, endTag, j);
    CutAtEndTag(text, startTag, endTag, i, Find(text, endTag));
  }

  /** A reply whose four tags first appear in order and without overlap is
      cut into the text between consecutive tags, the last section running
      to the end of the reply. */
  lemma OrderedTags(text: string, t1: string, t2: string, t3: string, t4: string,
                    i1: int, i2: int, i3: int, i4: int)
    requires IsFirstOccurrence(text, t1, i1) && IsFirstOccurrence(text, t2, i2)
    requires IsFirstOccurrence(text, t3, i3) && IsFirstOccurrence(text, t4, i4)
    requires t2 != EndSentinel && t3 != EndSentinel && t4 != EndSentinel
    requires i1 + |t1| <= i2 && i2 + |t2| <= i3 && i3 + |t3| <= i4
    ensures ExtractSection(text, t1, t2) == Strip(text[i1 + |t1|..i2])
    ensures ExtractSection(text, t2, t3) == Strip(text[i2 + |t2|..i3])
    ensures ExtractSection(text, t3, t4) == Strip(text[i3 + |t3|..i4])
    ensures ExtractSection(text, t4, EndSentinel) == Strip(text[i4 + |t4|..])
  {
    SectionBetweenTags(text, t1, t2, i1, i2);
    SectionBetweenTags(text, t2, t3, i2, i3);
    SectionBetweenTags(text, t3, t4, i3, i4);
    SentinelReadsToEnd(text, t4, i4);
  }
}
