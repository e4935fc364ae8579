/** The two text stages of the pipeline: extracting the leading words of a
    PDF's first page (`extract_text_from_pdf`) and wrapping the leading words
    of that text in the fixed image-prompt template (`generate_image_prompt`). */
module TextPipeline {
  import opened Wrappers
  import opened Words

  /** Words kept from the first page. */
  const ExtractWordLimit: nat := 50

  /** Words of the extracted text that go into the prompt. */
  const PromptWordLimit: nat := 30

  /** What the PDF reader yields for an uploaded document: it could not be
      read (the reader or the page's text extraction raised), it has no
      pages, or the text of its first page. */
  datatype PdfReading = Unreadable | NoPages | FirstPage(text: string)

  /** `extract_text_from_pdf`: None when reading fails, the empty text for a
      document without pages, otherwise the first 50 words of page one
      joined by single spaces. */
  function ExtractText(reading: PdfReading): (r: Option<string>)
    ensures r.None? <==> reading.Unreadable?
    ensures reading.NoPages? ==> r == Some("")
    ensures reading.FirstPage? ==>
      r.Some? && SingleSpaced(r.value) &&
      Split(r.value) == Take(Split(reading.text), ExtractWordLimit)
  {
    match reading
    case Unreadable => None
    case NoPages => Some("")
    case FirstPage(text) => Some(FirstWords(text, ExtractWordLimit))
  }

  /** Everything of the prompt before the summary line. */
  const PromptHeader: string :=
    "Create a simple document:\n" +
    "\n" +
    "Essential requirements:\n" +
    "- Light gradient background from white to very light blue\n" +
    "- Clean professional look with subtle geometric pattern\n" +
    "- Three clear text sections on top of background:\n" +
    "  1. Title (large black heading - first 5-7 words)\n" +
    "  2. Main text (dark gray content - 15-20 words)\n" +
    "  3. Bottom text (small gray text - 5-8 words)\n" +
    "\n"

  /** The summary line of a prompt: what sits between the header and the
      final line feed. */
  function SummaryOf(prompt: string): string
    requires |prompt| > |PromptHeader|
  {
    prompt[|PromptHeader|..|prompt| - 1]
  }

  /** `generate_image_prompt`: the fixed header, the first 30 words of the
      text joined by single spaces, and a final line feed. */
  function BuildPrompt(pdfText: string): (prompt: string)
    ensures |prompt| > |PromptHeader|
    ensures prompt[..|PromptHeader|] == PromptHeader
    ensures prompt[|prompt| - 1] == '\n'
    ensures SingleSpaced(SummaryOf(prompt))
    ensures Split(SummaryOf(prompt)) == Take(Split(pdfText), PromptWordLimit)
  {
    var summary := FirstWords(pdfText, PromptWordLimit);
    var prompt := PromptHeader + summary + "\n";
    assert SummaryOf(prompt) == summary;
    prompt
  }

  /** Two texts give the same prompt exactly when their first 30 words
      agree: the prompt depends on nothing else, and loses none of those
      words. */
  lemma PromptDeterminedBySummary(a: string, b: string)
    ensures BuildPrompt(a) == BuildPrompt(b) <==>
            Take(Split(a), PromptWordLimit) == Take(Split(b), PromptWordLimit)
  {
    if BuildPrompt(a) == BuildPrompt(b) {
      assert SummaryOf(BuildPrompt(a)) == SummaryOf(BuildPrompt(b));
    }
  }

  /** Truncating the page to 50 words first has no effect on the prompt:
      30 of the first 50 words are the first 30 words. */
  lemma PromptOfExtractedText(page: string)
    ensures ExtractText(FirstPage(page)).Some?
    ensures BuildPrompt(ExtractText(FirstPage(page)).value) == BuildPrompt(page)
    ensures Split(SummaryOf(BuildPrompt(ExtractText(FirstPage(page)).value))) ==
            Take(Split(page), PromptWordLimit)
  {
    FirstWordsTwice(page, PromptWordLimit, ExtractWordLimit);
  }

  /** A non-empty run of ASCII letters is a word. */
  lemma LetterWord(w: string)
    requires |w| > 0 && forall j :: 0 <= j < |w| ==> 'A' <= w[j] <= 'z'
    ensures IsWord(w)
  {
  }

  /** "Chapter One Introduction to Systems", written as its words and the
      single spaces between them. */
  const ChapterOne: string :=
    "Chapter" + " " + ("One" + " " + ("Introduction" + " " + ("to" + " " + "Systems")))

  const ChapterOneWords: seq<string> := ["Chapter", "One", "Introduction", "to", "Systems"]

  /** One step of a join: a word, a space, and the join of the rest. */
  lemma JoinCons(w: string, ws: seq<string>)
    requires ws != []
    ensures Join([w] + ws) == w + " " + Join(ws)
  {
    assert ([w] + ws)[1..] == ws;
  }

  lemma ChapterOneJoin()
    ensures Join(ChapterOneWords) == ChapterOne
  {
    var w4 := ["Systems"];
    var w3 := ["to"] + w4;
    var w2 := ["Introduction"] + w3;
    var w1 := ["One"] + w2;
    assert ChapterOneWords == ["Chapter"] + w1;
    JoinCons("to", w4);
    JoinCons("Introduction", w3);
    JoinCons("One", w2);
    JoinCons("Chapter", w1);
  }

  lemma ChapterOneAllWords()
    ensures AllWords(ChapterOneWords)
  {
    var ws := ChapterOneWords;
    forall i | 0 <= i < |ws| ensures IsWord(ws[i]) {
      LetterWord(ws[i]);
    }
  }

  /** A page that reads "Chapter One Introduction to Systems": the five
      words are extracted unchanged and appear whole in the prompt. */
  lemma ChapterOneExample()
    ensures ExtractText(FirstPage(ChapterOne)) == Some(ChapterOne)
    ensures BuildPrompt(ChapterOne) == PromptHeader + ChapterOne + "\n"
  {
    var ws := ChapterOneWords;
    ChapterOneJoin();
    ChapterOneAllWords();
    SplitJoin(ws);
    JoinSingleSpaced(ws);
    FirstWordsKeepsShort(ChapterOne, ExtractWordLimit);
    FirstWordsKeepsShort(ChapterOne, PromptWordLimit);
  }
}
