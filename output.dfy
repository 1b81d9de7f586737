/** The text the article generator writes to its output file: the introduction
    and a newline, then every section of the header-to-paragraphs map in
    insertion order, then the conclusion. */
module Output {
  import opened Text

  /** One entry of the insertion-ordered header-to-paragraphs map. */
  datatype Section = Section(header: string, paragraphs: seq<string>)

  /** What one section contributes: its header, a newline, and its paragraphs
      joined by newlines. Nothing follows the last paragraph. */
  function SectionText(s: Section): string
  {
    s.header + "\n" + Join("\n", s.paragraphs)
  }

  /** The sections' texts one after another, without separators. */
  function Body(sections: seq<Section>): string
  {
    if sections == [] then ""
    else Body(sections[..|sections| - 1]) + SectionText(sections[|sections| - 1])
  }

  /** The whole text written to the output file. */
  function ArticleText(intro: string, sections: seq<Section>, conclusion: string): (r: string)
    ensures |r| >= |intro| + 1 + |conclusion|
    ensures r[..|intro| + 1] == intro + "\n"
    ensures r[|r| - |conclusion|..] == conclusion
  {
    intro + "\n" + Body(sections) + conclusion
  }

  /** The writes of the output step, accumulated in the order they are issued. */
  method WriteArticle(intro: string, sections: seq<Section>, conclusion: string)
    returns (written: string)
    ensures written == ArticleText(intro, sections, conclusion)
  {
    written := intro + "\n";
    for i := 0 to |sections|
      invariant written == intro + "\n" + Body(sections[..i])
    {
      assert sections[..i + 1][..i] == sections[..i];
      written := written + sections[i].header + "\n";
      written := written + Join("\n", sections[i].paragraphs);
    }
    assert sections[..|sections|] == sections;
    written := written + conclusion;
  }

  /** The body of a prefix of the sections is a prefix of the body. */
  lemma {:induction false} BodyPrefix(sections: seq<Section>, k: nat)
    requires k <= |sections|
    ensures |Body(sections[..k])| <= |Body(sections)|
    ensures Body(sections)[..|Body(sections[..k])|] == Body(sections[..k])
  {
    if k < |sections| {
      var init := sections[..|sections| - 1];
      assert init[..k] == sections[..k];
      BodyPrefix(init, k);
    } else {
      assert sections[..k] == sections;
    }
  }

  /** Section `i` is written whole, starting right where the introduction line
      and the sections before it end: no separator precedes a header. */
  lemma SectionInPlace(intro: string, sections: seq<Section>, conclusion: string, i: nat)
    requires i < |sections|
    ensures var start := |intro| + 1 + |Body(sections[..i])|;
      var r := ArticleText(intro, sections, conclusion);
      start + |SectionText(sections[i])| <= |r| - |conclusion|
      && r[start..start + |SectionText(sections[i])|] == SectionText(sections[i])
  {
    var r := ArticleText(intro, sections, conclusion);
    var b := Body(sections);
    var pre := Body(sections[..i]);
    var sec := SectionText(sections[i]);
    assert sections[..i + 1][..i] == sections[..i];
    assert Body(sections[..i + 1]) == pre + sec;
    BodyPrefix(sections, i + 1);
    assert b[|pre|..|pre| + |sec|] == sec;
    var start := |intro| + 1 + |pre|;
    assert r == intro + "\n" + b + conclusion;
    assert r[start..start + |sec|] == b[|pre|..|pre| + |sec|];
  }

  /** The conclusion follows the last paragraph directly, and one more section
      follows the previous ones directly. */
  lemma ArticleAppendSection(intro: string, sections: seq<Section>, s: Section, conclusion: string)
    ensures ArticleText(intro, sections + [s], conclusion)
         == ArticleText(intro, sections, "") + s.header + "\n" + Join("\n", s.paragraphs) + conclusion
  {
    assert (sections + [s])[..|sections|] == sections;
  }

  /** Two sections of one paragraph each: `"I\nH1\np1H2\np2C"`. */
  lemma NoSeparators()
    ensures ArticleText("I", [Section("H1", ["p1"]), Section("H2", ["p2"])], "C")
         == "I\nH1\np1H2\np2C"
  {
    var s1 := Section("H1", ["p1"]);
    var s2 := Section("H2", ["p2"]);
    assert [s1, s2][..1] == [s1];
    assert [s1][..0] == [];
    assert SectionText(s1) == "H1\np1";
    assert SectionText(s2) == "H2\np2";
    assert Body([s1]) == "H1\np1";
    assert Body([s1, s2]) == "H1\np1" + "H2\np2";
  }
}
