/** The decision logic of the help-desk backend (backend/server.js): the
    three-stage resolver behind `/ask`, page-text extraction and the length
    guard behind `/getSummary`, and the option selection behind
    `/refineSearch`. Every call to the language model and every page fetch is
    an input to these functions. */
module Server {
  import opened Wrappers
  import opened JsText
  import opened JsNumber

  /** One help article of a role's knowledge base. A field missing from the
      JSON record is the empty string, which JavaScript treats as falsy just
      like `undefined`. */
  datatype KnowledgeItem = KnowledgeItem(title: string, url: string, data: string)

  /** What one awaited `generateContent(...).response.text()` produced: the
      reply text, or a thrown error. */
  datatype LlmOutcome = Ok(text: string) | Failed

  /** The body `searchWithGemini` returns, tagged by its `status` field. */
  datatype SearchResult =
    | OptionsFound(items: seq<KnowledgeItem>)
    | SectionFound(section: string)
    | NoMatch

  const NoMatchTitles: string := "no_match_titles"
  const NoMatchSection: string := "no_match_section"

  /** `loadKnowledgeBase(role)`: the parsed file `data/<role>.json`. A file
      that is missing, unreadable or not valid JSON gives the empty list;
      `files` holds the role files that parse. */
  function LoadKnowledgeBase(files: map<string, seq<KnowledgeItem>>, role: string): (kb: seq<KnowledgeItem>)
    ensures role in files ==> kb == files[role]
    ensures role !in files ==> kb == []
  {
    if role in files then files[role] else []
  }

  /** The position of the first item whose trimmed title is the candidate,
      or `|kb|` when no item's is. */
  function TitleIndex(kb: seq<KnowledgeItem>, candidate: string): (i: nat)
    ensures i <= |kb|
    ensures i < |kb| ==> Trim(kb[i].title) == candidate
    ensures forall j :: 0 <= j < i ==> Trim(kb[j].title) != candidate
  {
    if kb == [] || Trim(kb[0].title) == candidate then 0
    else
      var i := TitleIndex(kb[1..], candidate);
      assert forall j :: 0 < j < i + 1 ==> kb[j] == kb[1..][j - 1];
      1 + i
  }

  /** `knowledgeBase.find(item => item.title.trim() === candidate)`: the
      first item whose trimmed title is the candidate, or `None` when no
      item's is. */
  function FindByTitle(kb: seq<KnowledgeItem>, candidate: string): (r: Option<KnowledgeItem>)
    ensures r.Some? ==> r.value in kb && Trim(r.value.title) == candidate
    ensures r.Some? ==> r.value == kb[TitleIndex(kb, candidate)]
    ensures r.None? <==> forall item :: item in kb ==> Trim(item.title) != candidate
  {
    var i := TitleIndex(kb, candidate);
    if i < |kb| then Some(kb[i]) else None
  }

  /** The map-then-filter of `searchWithGemini`: each candidate title is
      looked up with `FindByTitle` and the ones that are not found are
      dropped. Every item comes from the knowledge base and is the lookup of
      some candidate, there are never more items than candidates, and the
      result is empty exactly when no candidate is found. */
  function ResolveCandidates(kb: seq<KnowledgeItem>, candidates: seq<string>): (r: seq<KnowledgeItem>)
    ensures |r| <= |candidates|
    ensures forall item :: item in r ==> item in kb
    ensures forall item :: item in r ==> exists c :: c in candidates && FindByTitle(kb, c) == Some(item)
    ensures r == [] <==> forall c :: c in candidates ==> FindByTitle(kb, c).None?
  {
    if candidates == [] then []
    else
      var head := Found(FindByTitle(kb, candidates[0]));
      var tail := ResolveCandidates(kb, candidates[1..]);
      assert forall c :: c in candidates[1..] ==> c in candidates;
      assert tail == [] && head == [] ==> forall c :: c in candidates ==> FindByTitle(kb, c).None? by {
        if tail == [] && head == [] {
          forall c | c in candidates ensures FindByTitle(kb, c).None? {
            if c != candidates[0] { assert c in candidates[1..]; }
          }
        }
      }
      assert forall item :: item in head + tail ==> exists c :: c in candidates && FindByTitle(kb, c) == Some(item) by {
        forall item | item in head + tail
          ensures exists c :: c in candidates && FindByTitle(kb, c) == Some(item)
        {
          if item in head {
            assert candidates[0] in candidates && FindByTitle(kb, candidates[0]) == Some(item);
          }
        }
      }
      head + tail
  }

  /** Resolution works candidate by candidate: resolving two runs of
      candidates one after the other gives the two results in that order. */
  lemma {:induction false} ResolveCandidatesAppend(kb: seq<KnowledgeItem>, a: seq<string>, b: seq<string>)
    ensures ResolveCandidates(kb, a + b) == ResolveCandidates(kb, a) + ResolveCandidates(kb, b)
  {
    if a != [] {
      var ab := a + b;
      assert ab[0] == a[0];
      assert ab[1..] == a[1..] + b;
      ResolveCandidatesCons(kb, ab);
      ResolveCandidatesCons(kb, a);
      ResolveCandidatesAppend(kb, a[1..], b);
      Associate(Found(FindByTitle(kb, a[0])), ResolveCandidates(kb, a[1..]), ResolveCandidates(kb, b));
    } else {
      assert a + b == b;
    }
  }

  /** The first candidate contributes its lookup in front of the rest. */
  lemma ResolveCandidatesCons(kb: seq<KnowledgeItem>, cs: seq<string>)
    requires cs != []
    ensures ResolveCandidates(kb, cs) == Found(FindByTitle(kb, cs[0])) + ResolveCandidates(kb, cs[1..])
  {
  }

  /** A candidate contributes its own lookup, at its own position, to the
      resolution of a run of candidates: its item when it matches a title,
      nothing when it matches none. */
  lemma ResolveCandidatesAt(kb: seq<KnowledgeItem>, a: seq<string>, c: string, b: seq<string>)
    ensures ResolveCandidates(kb, a + [c] + b)
      == ResolveCandidates(kb, a) + Found(FindByTitle(kb, c)) + ResolveCandidates(kb, b)
  {
    assert ResolveCandidates(kb, [c]) == Found(FindByTitle(kb, c)) by {
      assert [c][0] == c && [c][1..] == [];
      assert ResolveCandidates(kb, [c]) == Found(FindByTitle(kb, c)) + ResolveCandidates(kb, []);
    }
    ResolveCandidatesAppend(kb, a + [c], b);
    ResolveCandidatesAppend(kb, a, [c]);
  }

  /** The items a lookup contributes: none or one. */
  function Found(r: Option<KnowledgeItem>): (items: seq<KnowledgeItem>)
    ensures r.None? ==> items == []
    ensures r.Some? ==> items == [r.value]
  {
    match r
    case Some(item) => [item]
    case None => []
  }

  /** A candidate that matches no title is dropped without a trace. */
  lemma ResolveCandidatesDrops(kb: seq<KnowledgeItem>, a: seq<string>, c: string, b: seq<string>)
    requires FindByTitle(kb, c).None?
    ensures ResolveCandidates(kb, a + [c] + b) == ResolveCandidates(kb, a + b)
  {
    ResolveCandidatesAt(kb, a, c, b);
    ResolveCandidatesAppend(kb, a, b);
    assert ResolveCandidates(kb, a) + [] == ResolveCandidates(kb, a);
  }

  /** `reply.split(';').map(t => t.trim())`. */
  function Candidates(reply: string): (cs: seq<string>)
    ensures |cs| == |Split(reply, ';')|
    ensures forall i :: 0 <= i < |cs| ==> cs[i] == Trim(Split(reply, ';')[i])
  {
    var parts := Split(reply, ';');
    seq(|parts|, i requires 0 <= i < |parts| => Trim(parts[i]))
  }

  /** The trimmed reply is the sentinel, compared without regard to case:
      it has the sentinel's length, and a sentinel with a capital is never
      recognised. */
  predicate IsSentinel(reply: string, sentinel: string): (b: bool)
    ensures b ==> |Trim(reply)| == |sentinel|
    ensures b ==> forall i :: 0 <= i < |sentinel| ==> !IsCapital(sentinel[i])
  {
    ToLower(Trim(reply)) == sentinel
  }

  /** The sentinel test ignores case: a reply and its lower case are
      recognised alike, and only a sentinel without capitals can ever
      match. */
  lemma SentinelIgnoresCase(reply: string, sentinel: string)
    ensures IsSentinel(ToLower(reply), sentinel) <==> IsSentinel(reply, sentinel)
    ensures IsSentinel(reply, sentinel) ==> forall i :: 0 <= i < |sentinel| ==> !IsCapital(sentinel[i])
  {
    TrimToLower(reply);
    ToLowerIdempotent(Trim(reply));
  }

  /** Each sentinel, written as the prompts spell it, is recognised. */
  lemma SentinelsRecognised()
    ensures IsSentinel(NoMatchTitles, NoMatchTitles)
    ensures IsSentinel(NoMatchSection, NoMatchSection)
  {
    TrimUntouched(NoMatchTitles);
    TrimUntouched(NoMatchSection);
    ToLowerKeepsSmall(NoMatchTitles);
    ToLowerKeepsSmall(NoMatchSection);
  }

  /** The title stage of `searchWithGemini`: the matched items, or `None`
      when the stage falls through to the section stage, which happens
      exactly when the call failed, the reply is the `no_match_titles`
      sentinel, or no candidate of the reply names a title. Items found are
      knowledge-base items, at least one and at most one per candidate. */
  function TitleStage(kb: seq<KnowledgeItem>, reply: LlmOutcome): (r: Option<seq<KnowledgeItem>>)
    ensures r.None? <==>
      || reply.Failed?
      || IsSentinel(reply.text, NoMatchTitles)
      || forall c :: c in Candidates(Trim(reply.text)) ==> FindByTitle(kb, c).None?
    ensures r.Some? ==>
      && 0 < |r.value| <= |Candidates(Trim(reply.text))|
      && forall item :: item in r.value ==> item in kb
    ensures r.Some? ==> r.value == ResolveCandidates(kb, Candidates(Trim(reply.text)))
  {
    match reply
    case Failed => None
    case Ok(text) =>
      var trimmed := Trim(text);
      if ToLower(trimmed) == NoMatchTitles then None
      else
        var items := ResolveCandidates(kb, Candidates(trimmed));
        if |items| > 0 then Some(items) else None
  }

  /** The section stage of `searchWithGemini`: the trimmed reply, taken as a
      section name without checking it against the list of sections (it may
      even be empty), unless the call failed or the reply is the
      `no_match_section` sentinel. */
  function SectionStage(reply: LlmOutcome): (r: Option<string>)
    ensures r.Some? <==> reply.Ok? && !IsSentinel(reply.text, NoMatchSection)
    ensures r.Some? ==> r.value == Trim(reply.text) && ToLower(r.value) != NoMatchSection
  {
    match reply
    case Failed => None
    case Ok(text) =>
      var trimmed := Trim(text);
      if ToLower(trimmed) == NoMatchSection then None else Some(trimmed)
  }

  /** `searchWithGemini`: an empty knowledge base is `no_match` whatever the
      model would say; otherwise the title stage, then the section stage
      (consulted only when the title stage falls through), then `no_match`. */
  function SearchWithGemini(kb: seq<KnowledgeItem>, titleReply: LlmOutcome, sectionReply: LlmOutcome)
    : (r: SearchResult)
    ensures kb == [] ==> r == NoMatch
    ensures r.OptionsFound? <==> kb != [] && TitleStage(kb, titleReply).Some?
    ensures r.OptionsFound? ==>
      && r.items == TitleStage(kb, titleReply).value
      && |r.items| > 0
      && forall item :: item in r.items ==> item in kb
    ensures r.SectionFound? <==>
      kb != [] && TitleStage(kb, titleReply).None? && SectionStage(sectionReply).Some?
    ensures r.SectionFound? ==> r.section == Trim(sectionReply.text)
  {
    if kb == [] then NoMatch
    else
      match TitleStage(kb, titleReply)
      case Some(items) => OptionsFound(items)
      case None =>
        match SectionStage(sectionReply)
        case Some(section) => SectionFound(section)
        case None => NoMatch
  }

  /** The section stage is never consulted when the title stage succeeds,
      and neither stage is consulted for an empty knowledge base. */
  lemma SearchIgnoresUnusedReplies(kb: seq<KnowledgeItem>, t1: LlmOutcome, s1: LlmOutcome, t2: LlmOutcome, s2: LlmOutcome)
    ensures kb == [] ==> SearchWithGemini(kb, t1, s1) == SearchWithGemini(kb, t2, s2)
    ensures TitleStage(kb, t1).Some? ==> SearchWithGemini(kb, t1, s1) == SearchWithGemini(kb, t1, s2)
  {
  }

  /** The request body of `POST /ask`; a missing field is the empty string. */
  datatype AskRequest = AskRequest(message: string, role: string, sections: string)

  /** `/ask` answers 400 or the search result as JSON. */
  datatype AskResponse = AskBadRequest | AskAnswered(result: SearchResult)

  /** `POST /ask`: 400 when the message, the role or the sections are falsy;
      otherwise the search over the role's knowledge base. The items offered
      always belong to the knowledge base of the role that asked. */
  function Ask(req: AskRequest, files: map<string, seq<KnowledgeItem>>, titleReply: LlmOutcome, sectionReply: LlmOutcome)
    : (r: AskResponse)
    ensures r.AskBadRequest? <==> req.message == [] || req.role == [] || req.sections == []
    ensures r.AskAnswered? ==>
      r.result == SearchWithGemini(LoadKnowledgeBase(files, req.role), titleReply, sectionReply)
    ensures r.AskAnswered? && req.role !in files ==> r.result == NoMatch
    ensures r.AskAnswered? && r.result.OptionsFound? ==>
      req.role in files && forall item :: item in r.result.items ==> item in files[req.role]
  {
    if req.message == [] || req.role == [] || req.sections == [] then AskBadRequest
    else AskAnswered(SearchWithGemini(LoadKnowledgeBase(files, req.role), titleReply, sectionReply))
  }

  /** The CSS selectors `getTextFromUrl` tries, in priority order. */
  const Selectors: seq<string> := [".lia-message-body", ".body.message-body", "article", "main", "body"]

  /** `$(selector).text()` on the parsed page: the text of every element the
      selector matches; the empty string when it matches none. */
  function SelectorText(page: map<string, string>, selector: string): (text: string)
    ensures selector in page ==> text == page[selector]
    ensures selector !in page ==> text == []
  {
    if selector in page then page[selector] else ""
  }

  /** The chain `a || b || c || d || e`: the first non-empty text, or the
      empty string when all are empty. */
  function FirstNonEmpty(texts: seq<string>): (r: string)
    ensures r == [] <==> forall i :: 0 <= i < |texts| ==> texts[i] == []
    ensures r != [] ==> exists i :: (0 <= i < |texts| && texts[i] == r
      && forall j :: 0 <= j < i ==> texts[j] == [])
  {
    if texts == [] then []
    else if texts[0] != [] then texts[0]
    else
      var r := FirstNonEmpty(texts[1..]);
      assert forall i :: 1 <= i < |texts| ==> texts[i] == texts[1..][i - 1];
      assert r != [] ==> exists i :: (0 <= i < |texts| && texts[i] == r
        && forall j :: 0 <= j < i ==> texts[j] == []) by {
        if r != [] {
          var i :| (0 <= i < |texts[1..]| && texts[1..][i] == r
            && forall j :: 0 <= j < i ==> texts[1..][j] == []);
          assert texts[i + 1] == r;
        }
      }
      r
  }

  /** `mainContent.replace(/\s+/g, ' ').trim()`: the words of the text
      joined by single spaces. The result has no leading or trailing
      whitespace, no two adjacent whitespace characters, no whitespace but
      the plain space, and keeps every non-whitespace character of the input
      in order. */
  function NormalizeWhitespace(s: string): (r: string)
    ensures r == Join(Words(s), " ")
    ensures r != [] ==> !IsSpace(r[0]) && !IsSpace(r[|r| - 1])
    ensures NoSpaceRun(r) && OnlyBlanks(r)
    ensures NonSpace(r) == NonSpace(s)
  {
    var c := CollapseSpaces(s);
    TrimKeepsShape(c);
    CollapseTrimWords(s);
    Trim(c)
  }

  /** Normalizing twice gives the same result as normalizing once. */
  lemma {:induction false} NormalizeWhitespaceIdempotent(s: string)
    ensures NormalizeWhitespace(NormalizeWhitespace(s)) == NormalizeWhitespace(s)
  {
    var r := NormalizeWhitespace(s);
    CollapseSpacesFixed(r);
    TrimIdempotent(CollapseSpaces(s));
  }

  /** The outcome of `fetch(url)` and `response.text()`: a network or parse
      error, a response that is not ok, or a page whose selectors give the
      mapped texts. */
  datatype FetchOutcome = FetchFailed | NotOk | Fetched(page: map<string, string>)

  /** `getTextFromUrl`: the empty string when the fetch fails or the response
      is not ok; otherwise the text of the first selector, in the order of
      `Selectors`, whose text is non-empty, with its whitespace normalized. */
  function GetTextFromUrl(fetch: FetchOutcome): (r: string)
    ensures !fetch.Fetched? ==> r == []
    ensures fetch.Fetched? ==> r == NormalizeWhitespace(FirstNonEmpty(PageTexts(fetch.page)))
  {
    match fetch
    case FetchFailed => []
    case NotOk => []
    case Fetched(page) => NormalizeWhitespace(FirstNonEmpty(PageTexts(page)))
  }

  /** The five selector texts of a page, in priority order. */
  function PageTexts(page: map<string, string>): (ts: seq<string>)
    ensures |ts| == |Selectors|
    ensures forall i :: 0 <= i < |ts| ==> ts[i] == SelectorText(page, Selectors[i])
  {
    seq(|Selectors|, i requires 0 <= i < |Selectors| => SelectorText(page, Selectors[i]))
  }

  /** Priority, not specificity, decides: on a page where neither message-body
      selector matches, the `article` text wins over the `main` text. */
  lemma ArticleBeforeMain(page: map<string, string>)
    requires SelectorText(page, ".lia-message-body") == []
    requires SelectorText(page, ".body.message-body") == []
    requires SelectorText(page, "article") != []
    ensures GetTextFromUrl(Fetched(page)) == NormalizeWhitespace(SelectorText(page, "article"))
  {
    var ts := PageTexts(page);
    assert ts[0] == [] && ts[1] == [];
    assert ts[2] == SelectorText(page, "article");
    assert FirstNonEmpty(ts) == ts[2] by {
      assert ts[1..][1..][0] == ts[2];
      assert FirstNonEmpty(ts) == FirstNonEmpty(ts[1..]);
      assert FirstNonEmpty(ts[1..]) == FirstNonEmpty(ts[1..][1..]);
    }
  }

  /** A selector whose text is only whitespace is still chosen (the string is
      truthy), and the page then yields the empty text even when a later
      selector has content. */
  lemma BlankForumBodyShadowsArticle(page: map<string, string>)
    requires SelectorText(page, ".lia-message-body") != []
    requires NonSpace(SelectorText(page, ".lia-message-body")) == []
    ensures GetTextFromUrl(Fetched(page)) == []
  {
    var ts := PageTexts(page);
    assert ts[0] == SelectorText(page, ".lia-message-body");
    NoWordsNormalizeToEmpty(ts[0]);
  }

  /** A text without a non-whitespace character normalizes to the empty
      string. */
  lemma NoWordsNormalizeToEmpty(s: string)
    requires NonSpace(s) == []
    ensures NormalizeWhitespace(s) == []
  {
    NonSpaceEmpty(NormalizeWhitespace(s));
  }

  const TooShortMessage: string := "El contenido es demasiado corto para generar un resumen significativo."
  const NoTextMessage: string := "No se pudo generar un resumen con Gemini. El modelo no devolvió texto."
  const LlmErrorMessage: string :=
    "Lo siento, hubo un problema al generar el resumen con Gemini. Por favor, verifica tu API Key y la conexión."

  /** Texts shorter than this many UTF-16 code units are not summarized. */
  const MinSummaryLength: nat := 100

  /** `summarizeText`: text shorter than 100 UTF-16 code units (the empty
      text included) gets the fixed "too short" message and the model is not
      consulted; otherwise the model's reply when it is non-empty, and a fixed
      message when it is empty or the call failed. The answer is never
      empty. */
  function SummarizeText(text: string, reply: LlmOutcome): (r: string)
    ensures r != []
    ensures Utf16Length(text) < MinSummaryLength ==> r == TooShortMessage
    ensures Utf16Length(text) >= MinSummaryLength ==>
      r == (match reply
            case Ok(summary) => if summary != [] then summary else NoTextMessage
            case Failed => LlmErrorMessage)
  {
    if text == [] || Utf16Length(text) < MinSummaryLength then TooShortMessage
    else
      match reply
      case Ok(summary) => if summary != [] then summary else NoTextMessage
      case Failed => LlmErrorMessage
  }

  /** The request body of `POST /getSummary` and of the older `/summarize`. */
  datatype SummaryRequest = SummaryRequest(url: string)

  datatype SummaryResponse = SummaryBadRequest | Summary(resumen: string)

  /** `POST /getSummary`: 400 when the URL is falsy, otherwise the summary of
      the page's extracted text. */
  function GetSummary(req: SummaryRequest, fetch: FetchOutcome, reply: LlmOutcome): (r: SummaryResponse)
    ensures r.SummaryBadRequest? <==> req.url == []
    ensures req.url != [] ==> r == Summary(SummarizeText(GetTextFromUrl(fetch), reply))
    ensures r.Summary? ==> r.resumen != []
  {
    if req.url == [] then SummaryBadRequest
    else Summary(SummarizeText(GetTextFromUrl(fetch), reply))
  }

  /** A page that cannot be fetched is answered with the "too short" message
      and the model is never consulted. */
  lemma FetchFailureIsTooShort(req: SummaryRequest, fetch: FetchOutcome, reply: LlmOutcome)
    requires req.url != [] && !fetch.Fetched?
    ensures GetSummary(req, fetch, reply) == Summary(TooShortMessage)
  {
  }

  datatype LegacySummaryResponse = LegacyBadRequest | LegacySummary(url: string, resumen: string)

  /** `POST /summarize`, the older route: the same as `/getSummary`, with the
      URL echoed back. */
  function SummarizeLegacy(req: SummaryRequest, fetch: FetchOutcome, reply: LlmOutcome): (r: LegacySummaryResponse)
    ensures r.LegacyBadRequest? <==> GetSummary(req, fetch, reply).SummaryBadRequest?
    ensures r.LegacySummary? ==>
      r.url == req.url && GetSummary(req, fetch, reply) == Summary(r.resumen)
  {
    if req.url == [] then LegacyBadRequest
    else LegacySummary(req.url, SummarizeText(GetTextFromUrl(fetch), reply))
  }

  /** `choice > 0 && choice <= options.length ? options[choice - 1] : none`:
      the option a 1-based number picks, shared by the chat page and
      `/refineSearch`. `NaN` picks nothing. */
  function SelectOption(choice: Option<int>, options: seq<KnowledgeItem>): (r: Option<KnowledgeItem>)
    ensures r.Some? <==> choice.Some? && 1 <= choice.value <= |options|
    ensures r.Some? ==> r.value == options[choice.value - 1]
  {
    if choice.Some? && 0 < choice.value <= |options| then Some(options[choice.value - 1]) else None
  }

  /** The request body of `POST /refineSearch`; missing options are `[]`. */
  datatype RefineRequest = RefineRequest(message: string, options: seq<KnowledgeItem>)

  datatype RefineResponse =
    | RefineBadRequest
    | MatchFound(url: string)
    | RefineNoMatch
    | RefineServerError

  /** `POST /refineSearch`: 400 when the message is falsy or there are no
      options; 500 when the model call fails; otherwise `match_found` with the
      URL of the option whose 1-based number the trimmed reply starts with,
      and `no_match` for any other reply (`0`, out of range, not a number). */
  function RefineSearch(req: RefineRequest, reply: LlmOutcome): (r: RefineResponse)
    ensures r.RefineBadRequest? <==> req.message == [] || req.options == []
    ensures r.RefineServerError? <==> !r.RefineBadRequest? && reply.Failed?
    ensures r.MatchFound? ==> reply.Ok? && exists n ::
      1 <= n <= |req.options| && ParseInt(Trim(reply.text)) == Some(n) && r.url == req.options[n - 1].url
    ensures r.RefineNoMatch? <==>
      !r.RefineBadRequest? && reply.Ok? && SelectOption(ParseInt(Trim(reply.text)), req.options).None?
  {
    if req.message == [] || req.options == [] then RefineBadRequest
    else
      match reply
      case Failed => RefineServerError
      case Ok(text) =>
        var n := ParseInt(Trim(text));
        match SelectOption(n, req.options)
        case Some(option) => MatchFound(option.url)
        case None => RefineNoMatch
  }

  /** A reply that is just the number `n` of an option selects that option. */
  lemma RefineSelectsNumberedOption(req: RefineRequest, n: nat)
    requires req.message != [] && 1 <= n <= |req.options|
    ensures RefineSearch(req, Ok(Decimal(n))) == MatchFound(req.options[n - 1].url)
  {
    ParseIntOfDecimal(n);
    RefineSelectsParsed(req, Decimal(n), n);
  }

  /** A reply whose trimmed text parses to the number `n` of an option
      selects that option. */
  lemma RefineSelectsParsed(req: RefineRequest, text: string, n: nat)
    requires req.message != [] && 1 <= n <= |req.options|
    requires ParseInt(Trim(text)) == Some(n)
    ensures RefineSearch(req, Ok(text)) == MatchFound(req.options[n - 1].url)
  {
    var choice := ParseInt(Trim(text));
    SelectNumbered(choice, req.options, n);
    assert RefineSearch(req, Ok(text)) == (match SelectOption(choice, req.options)
      case Some(option) => MatchFound(option.url)
      case None => RefineNoMatch);
  }

  lemma SelectNumbered(choice: Option<int>, options: seq<KnowledgeItem>, n: nat)
    requires choice == Some(n) && 1 <= n <= |options|
    ensures SelectOption(choice, options) == Some(options[n - 1])
  {
  }
}
