/** The prompt templates of the article generator: one f-string per endpoint,
    each a pure function of its inputs. Every template embeds its inputs
    verbatim, which the contracts and lemmas below state. */
module Prompts {
  import opened Text

  /** Prompt of `generate_outline`: four headers for the titled article. */
  function OutlinePrompt(title: string, keywords: seq<string>, tone: string): (r: string)
    ensures Contains(r, title)
    ensures Contains(r, Join(", ", keywords))
    ensures Contains(r, tone)
  {
    var a := "Generate four headers for a technical article titled ";
    var b := "\n      focused on ";
    var k := Join(", ", keywords);
    var r := a + title + b + k + " with a " + tone + " tone";
    assert OccursAt(r, title, |a|);
    assert OccursAt(r, k, |a + title + b|);
    assert OccursAt(r, tone, |a + title + b + k + " with a "|);
    r
  }

  /** Every keyword occurs in the outline prompt. */
  lemma OutlinePromptKeywords(title: string, keywords: seq<string>, tone: string, i: nat)
    requires i < |keywords|
    ensures Contains(OutlinePrompt(title, keywords, tone), keywords[i])
  {
    JoinContainsEach(", ", keywords, i);
    ContainsTrans(OutlinePrompt(title, keywords, tone), Join(", ", keywords), keywords[i]);
  }

  /** Prompt of `generate_talking_points`: three points for one header. */
  function TalkingPointsPrompt(header: string, tone: string): (r: string)
    ensures Contains(r, header)
    ensures Contains(r, tone)
  {
    var a := "Generate three talking points for a section of a \n    technical article titled ";
    var r := a + header + " with a " + tone + " tone";
    assert OccursAt(r, header, |a|);
    assert OccursAt(r, tone, |a + header + " with a "|);
    r
  }

  /** Prompt of `generate_main_paragraph`: a paragraph on one talking point. */
  function ParagraphPrompt(point: string, tone: string): (r: string)
    ensures Contains(r, point)
    ensures Contains(r, tone)
  {
    var a := "Generate a four sentence paragraph based\n    on ";
    var r := a + point + " with a " + tone + " tone";
    assert OccursAt(r, point, |a|);
    assert OccursAt(r, tone, |a + point + " with a "|);
    r
  }

  /** Prompt of `generate_intro_paragraph`: the title is quoted, the headers
      are joined with ", ". */
  function IntroPrompt(title: string, headers: seq<string>, tone: string): (r: string)
    ensures Contains(r, tone)
    ensures Contains(r, "\"" + title + "\"")
    ensures Contains(r, Join(", ", headers))
  {
    var a := "Generate a four sentence article introduction paragraph with a ";
    var b := " tone \n    for an article titled ";
    var h := Join(", ", headers);
    var r := a + tone + b + "\"" + title + "\"" + " with the headers " + h;
    assert OccursAt(r, tone, |a|);
    assert OccursAt(r, "\"" + title + "\"", |a + tone + b|);
    assert OccursAt(r, h, |r| - |h|);
    r
  }

  /** Every header occurs in the introduction prompt. */
  lemma IntroPromptHeaders(title: string, headers: seq<string>, tone: string, i: nat)
    requires i < |headers|
    ensures Contains(IntroPrompt(title, headers, tone), headers[i])
  {
    JoinContainsEach(", ", headers, i);
    ContainsTrans(IntroPrompt(title, headers, tone), Join(", ", headers), headers[i]);
  }

  /** Prompt of `generate_conclusion_paragraph`: the introduction closes the
      prompt, right after a colon and without a space. */
  function ConclusionPrompt(title: string, intro: string, tone: string): (r: string)
    ensures Contains(r, tone)
    ensures Contains(r, title)
    ensures |r| >= |intro| + 1 && r[|r| - |intro| - 1..] == ":" + intro
  {
    var a := "Generate a four sentence section conclusion paragraph with a ";
    var b := " tone \n    for an article titled ";
    var c := " with the introduction paragraph:";
    var r := a + tone + b + title + c + intro;
    assert OccursAt(r, tone, |a|);
    assert OccursAt(r, title, |a + tone + b|);
    r
  }
}
