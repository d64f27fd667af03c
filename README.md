# Canvas help-desk chatbot: conversation and resolution logic in Dafny

The chatbot helps users of the Canvas learning platform. A browser page
(`frontend/js/main.js`) holds a conversation. The user picks a role and asks
a question. The backend (`backend/server.js`) asks a language model which
help articles or which Canvas section fit the question. The user then picks
an article by number or in free text, and the backend summarizes the
article's page.

This project models two parts of that system and proves properties of them.

- **The backend's decision logic** (`server.dfy`, module `Server`), written as
  functions and lemmas:
  - the three-stage resolver `searchWithGemini`: an empty knowledge base, then
    the title stage, then the section stage;
  - the selector fallback and whitespace normalisation of `getTextFromUrl`;
  - the length guard of `summarizeText`;
  - the validation and option selection of `/ask`, `/getSummary`,
    `/summarize` and `/refineSearch`.

  Every language-model reply and every page fetch is a parameter: an
  `LlmOutcome` (`Ok(text)` or `Failed`), or a `FetchOutcome` carrying the
  text of each CSS selector.
- **The chat page's state machine** (`chat.dfy`, module `Chat`):
  - the class `ChatSession` holds the three module-level variables and the
    enabled flag of the text box;
  - each event handler is a method that updates those fields step by step;
  - the event handlers (`HandleQuestion`, `SendMessage`, `SelectRole`,
    `RestartChat`, `EndChat`, `ClickSend`, `HandleKeyPress`) are proved
    equal to a pure transition function (`AfterAsk`, `AfterSend` or
    `Next`; `AfterSend` hands refinements to `AfterRefinement`), and the
    conversation's properties are proved about those functions;
  - the two display helpers `ShowInitialOptions` and `ShowSuggestedOptions`
    state their new fields outright.

  Every network exchange is a parameter: the response the backend sent, or a
  transport error. Delayed callbacks (`setTimeout`) take effect at once.
- **The JavaScript built-ins both programs rely on**:
  - `js_text.dfy` covers `trim`, the regular-expression class `\s`,
    `toLowerCase`, `includes`, `split`, `join` and the UTF-16 `length`;
  - `js_number.dfy` covers `parseInt` without a radix, as specified in
    section 19.2.5 of ECMAScript.
- **`wrappers.dfy`** holds the `Option` type. `None` stands for `null`,
  `undefined` or `NaN`.

What the model shows about the running system:

- An affirmative reply in `awaiting_section_confirmation` reads
  `suggestedOptions[0].data`. When no `options_found` answer ever stored
  options, this throws. The handler stops with the text box disabled, and
  the user can only continue through a stale button.
  - `Chat.SectionFirstThenYesIsStuck` shows a run that ends this way.
  - `Chat.NextCanContinue` proves this is the only event that takes away
    every way on.
- Otherwise, options from an earlier round are reused.
- The confirmation test is a substring test, so "no, necesito otra cosa"
  counts as yes.

Behaviour of the code a reader may not expect:

- `finished` is not terminal. The role buttons and the menu buttons stay on
  the page and still work.
- `suggestedOptions` is never cleared.
- A 500 answer from `/refineSearch` reaches the page as a body with status
  `error`. The page takes it as "no URL" and shows the "invalid option"
  message, not the transport-error message.

## Model

| member | source | states |
|---|---|---|
| JsText.Trim | backend/server.js:58 | `trim()` leaves text that neither starts nor ends with whitespace, and it is empty exactly when the input is all whitespace |
| JsText.TrimSlice | backend/server.js:110 | what `trim()` keeps is one contiguous slice of the input, and everything removed on either side is whitespace |
| JsText.SplitCons | backend/server.js:61 | `split` reads one character at a time: a separator starts a new piece, any other character extends the first piece |
| JsText.TrimKeepsShape | backend/server.js:110 | `trim()` keeps every non-whitespace character in order, and keeps a text free of whitespace runs and of whitespace other than the plain space |
| JsText.TrimIdempotent | frontend/js/main.js:134 | trimming an already trimmed message changes nothing |
| JsText.TrimStart | backend/server.js:199 | the whitespace `parseInt` skips is a prefix of whitespace only, and what is left does not start with whitespace |
| JsText.ToLower | backend/server.js:60 | the lower case has no capitals left, lowers each character on its own, and leaves every other character as it was |
| JsText.LowerChar | backend/server.js:60 | a capital becomes the small letter 32 code points above it; any other character is kept; the result is never a capital |
| JsText.ToLowerKeepsSmall | backend/server.js:60 | a text without capitals is its own lower case |
| JsText.ToLowerIdempotent | backend/server.js:60 | lowering twice is lowering once |
| JsText.TrimToLower | backend/server.js:57-60 | lowering and trimming commute, so trimming before `toLowerCase` gives the same text as trimming after |
| JsText.LowerKeepsContains | frontend/js/main.js:216 | every occurrence of a text without capitals is still found after lowering |
| JsText.Contains | frontend/js/main.js:216 | `includes(sub)` holds exactly when `sub` occurs at some position |
| JsText.Split | backend/server.js:61 | `split(';')` gives at least one piece, and no piece contains the separator |
| JsText.JoinSplit | backend/server.js:61 | joining the pieces of `split(sep)` with `sep` gives back the original text |
| JsText.SplitJoin | backend/server.js:61 | splitting a join of separator-free pieces gives back the pieces |
| JsText.Join | frontend/js/main.js:94 | `join` starts with the first part, and its length is that of the parts plus one separator per gap; no parts give the empty text |
| JsText.JoinNonEmpty | frontend/js/main.js:94 | a join whose first part is non-empty is non-empty |
| JsText.CollapseSpaces | backend/server.js:110 | `replace(/\s+/g, ' ')` leaves no two adjacent whitespace characters and no whitespace but the plain space; it keeps the non-whitespace characters in order; the result starts with whitespace exactly when the input does |
| JsText.CollapseRun | backend/server.js:110 | a whole run of whitespace between two non-whitespace characters, or at either end, becomes one single space, and the text on either side is collapsed on its own |
| JsText.Words | backend/server.js:110 | the words of a text, left to right: each one non-empty and free of whitespace |
| JsText.CollapseTrimWords | backend/server.js:110 | collapsing whitespace runs and then trimming gives the words of the text joined by single spaces |
| JsText.CollapseSpacesFixed | backend/server.js:110 | collapsing a text that is already collapsed changes nothing |
| JsText.Utf16Length | backend/server.js:118 | the UTF-16 `length` is between the number of characters and twice that |
| JsNumber.DigitsValue | backend/server.js:199 | a string of `n` digits in base `radix` has a value below `radix` to the power `n` |
| JsNumber.DigitRun | backend/server.js:199 | `parseInt` reads the longest run of digits: every character in the run is a digit, and the first one after it is not |
| JsNumber.ParseInt | backend/server.js:199 | `parseInt` gives NaN when the text, after leading whitespace, is empty or starts with something other than a sign or a digit |
| JsNumber.ParseUnsigned | frontend/js/main.js:153 | the unsigned part of `parseInt` gives NaN unless it starts with a decimal digit |
| JsNumber.Decimal | frontend/js/main.js:153 | the decimal rendering of `k` has only digits and no leading zero, and its value is `k` |
| JsNumber.ParseIntDecimal | frontend/js/main.js:153 | whitespace, the digits of `k`, then any text that does not continue the number, parse back to `k`; the exception is `0x` |
| JsNumber.ParseIntOfDecimal | backend/server.js:198-199 | the digits of `k` are unchanged by trimming and parse back to `k` |
| JsNumber.DigitsAfterSpaces | backend/server.js:199 | after leading whitespace, a text that starts with a digit is read as its unsigned number |
| JsNumber.ParseSigned | frontend/js/main.js:153 | the sign step of `parseInt`: a text that is empty or starts with neither a sign nor a digit gives NaN |
| JsNumber.ParseIntSkipsSpaces | backend/server.js:199 | leading whitespace does not change what `parseInt` reads |
| JsNumber.ParseIntMinus | frontend/js/main.js:153 | a leading minus sign negates what follows |
| Server.TitleIndex | backend/server.js:63 | the position `find` stops at has a matching trimmed title, and no earlier title matches |
| Server.FindByTitle | backend/server.js:63 | `find` returns an item of the knowledge base whose trimmed title is the candidate, the first such item, and none exactly when no title matches |
| Server.ResolveCandidates | backend/server.js:61-65 | the resolved items all come from the knowledge base; each is the lookup of some candidate; there are no more items than candidates; the result is empty exactly when no candidate resolves |
| Server.ResolveCandidatesAppend | backend/server.js:62-65 | resolution works candidate by candidate, so the items follow the order of the candidates |
| Server.ResolveCandidatesAt | backend/server.js:62-65 | each candidate contributes its own lookup at its own position: its item, or nothing |
| Server.ResolveCandidatesDrops | backend/server.js:65 | a candidate that matches no title is dropped without a trace |
| Server.Candidates | backend/server.js:61 | one candidate per `;`-separated piece, each trimmed |
| Server.LoadKnowledgeBase | backend/server.js:32-41 | the knowledge base of a role is its parsed file, and the empty list when the file is missing or does not parse |
| Server.IsSentinel | backend/server.js:60 | the trimmed reply matches the sentinel only with the sentinel's length, and a sentinel with a capital never matches |
| Server.SentinelIgnoresCase | backend/server.js:60 | a reply and its lower case are recognised alike, and only a sentinel without capitals can match |
| Server.SentinelsRecognised | backend/server.js:60 | the replies `no_match_titles` and `no_match_section` as written are recognised as the sentinels |
| Server.TitleStage | backend/server.js:56-73 | the title stage falls through exactly when the call fails, the trimmed reply is `no_match_titles` in any case, or no candidate resolves; otherwise it yields exactly the resolution of the candidates of the trimmed reply: between one item and one item per candidate, all from the knowledge base |
| Server.SectionStage | backend/server.js:80-91 | the section stage yields the trimmed reply exactly when the call succeeded and the reply is not `no_match_section` in any case; the section is not checked against the list and may be empty |
| Server.SearchWithGemini | backend/server.js:44-92 | an empty knowledge base gives `no_match`; `options_found` exactly when the title stage succeeds, with non-empty items from the knowledge base; `section_found` exactly when the title stage falls through and the section stage succeeds, with the trimmed reply |
| Server.SearchIgnoresUnusedReplies | backend/server.js:45-47 | with an empty knowledge base the result does not depend on either model reply; once the title stage succeeds, the section reply is never used |
| Server.Ask | backend/server.js:154-168 | `/ask` answers 400 exactly when the message, role or sections are falsy; otherwise the answer is the search over the asking role's knowledge base; an unknown role gives `no_match`; offered items belong to that knowledge base |
| Server.FirstNonEmpty | backend/server.js:104-108 | the `\|\|` chain gives the first non-empty text and everything before it is empty; it is empty exactly when all texts are |
| Server.SelectorText | backend/server.js:104-108 | a selector gives the page's text for it, and the empty text when it matches nothing |
| Server.PageTexts | backend/server.js:104-108 | one text per selector, in the fixed selector order: text `i` is what selector `i` gives |
| Server.NormalizeWhitespace | backend/server.js:110 | the extracted text is the words of the page text joined by single spaces: no leading or trailing whitespace, no run of whitespace, no whitespace but the plain space, and every non-whitespace character kept in order |
| Server.NormalizeWhitespaceIdempotent | backend/server.js:110 | normalizing twice is the same as normalizing once |
| Server.NoWordsNormalizeToEmpty | backend/server.js:110 | a text without non-whitespace characters normalizes to the empty string |
| Server.GetTextFromUrl | backend/server.js:94-115 | a failed fetch or a response that is not ok gives the empty string; otherwise the first non-empty selector text, normalized |
| Server.ArticleBeforeMain | backend/server.js:104-108 | order, not specificity, decides: with both message-body selectors empty, `article` wins over `main` |
| Server.BlankForumBodyShadowsArticle | backend/server.js:104-110 | a forum body made only of whitespace is truthy and is still chosen, so the page yields the empty text even when a later selector has content |
| Server.SummarizeText | backend/server.js:117-150 | text shorter than 100 UTF-16 units gets the fixed "too short" message whatever the model says; otherwise the model's reply, or a fixed message when the reply is empty or the call fails; the answer is never empty |
| Server.GetSummary | backend/server.js:170-181 | `/getSummary` answers 400 exactly when the URL is falsy, and otherwise the summary of the text extracted from the fetched page, which is never empty |
| Server.FetchFailureIsTooShort | backend/server.js:94-119 | a page that cannot be fetched gets the "too short" message, and the model is not consulted |
| Server.SummarizeLegacy | backend/server.js:214-223 | `/summarize` answers 400 exactly when `/getSummary` does, and otherwise the same summary with the URL echoed |
| Server.SelectOption | backend/server.js:201-202 | a number picks an option exactly when it is between 1 and the number of options, and then it picks option `n - 1` |
| Server.RefineSearch | backend/server.js:183-211 | `/refineSearch` answers 400 exactly when the message is falsy or there are no options; 500 exactly when the model call fails; `match_found` only with the URL of option `n`, where `n` is the parsed trimmed reply; `no_match` exactly when the parsed reply picks nothing |
| Server.RefineSelectsNumberedOption | backend/server.js:198-203 | a reply that is just the number of an option selects that option's URL |
| Server.RefineSelectsParsed | backend/server.js:198-203 | any reply whose trimmed text parses to the number of an option selects that option's URL |
| Server.ResolveCandidatesCons | backend/server.js:62-65 | the first candidate's lookup comes before the items of the remaining candidates |
| Chat.CanvasSections | frontend/js/main.js:9-13 | every role has a non-empty list of sections |
| Chat.SectionsText | frontend/js/main.js:94 | the sections text a role sends is never empty |
| Chat.RoleName | frontend/js/main.js:33-35 | every role button passes a non-empty role name |
| Chat.QuestionRequest | frontend/js/main.js:94-99 | a question the page posts carries the message as given, and always a role and a sections text |
| Chat.QuestionRequestAccepted | frontend/js/main.js:94-99 | a question the page posts passes the checks of `/ask` exactly when its message is non-empty |
| Chat.AfterAsk | frontend/js/main.js:90-130 | `options_found` stores the items and awaits a choice with input enabled; `section_found` awaits confirmation with input enabled; any other answer offers the menu and leaves input disabled; a transport error, or a missing role, keeps the state and re-enables input; the role never changes |
| Chat.ChosenUrl | frontend/js/main.js:153-172 | an option picked by number gives that option's URL, whatever `/refineSearch` would say; with no pick, a URL comes only from a `match_found` answer, and a `match_found` answer gives its URL |
| Chat.AfterRefinement | frontend/js/main.js:151-213 | the requests are exactly: a `/refineSearch` request with the current options unless a number in range picked an option, then a summary request when a URL was obtained either way; a delivered summary offers the menu; with no URL or a failed summary, the state stays and input is re-enabled; role and options are kept |
| Chat.IsAffirmative | frontend/js/main.js:216 | a reply that contains "sí" or "si" as typed is affirmative, and a reply shorter than two characters never is |
| Chat.AffirmativeIgnoresCase | frontend/js/main.js:216 | a reply and its lower case are judged alike |
| Chat.AffirmativeLetters | frontend/js/main.js:216 | a reply is affirmative exactly when, somewhere in it, a character that lowers to `s` is followed by one that lowers to `i` or `í` |
| Chat.AfterSend | frontend/js/main.js:133-227 | an empty trimmed message, or any message in `awaiting_role`, changes nothing; in the menu or `finished` only the input is disabled; a question is asked with the trimmed text; a non-affirmative confirmation goes back to `awaiting_question` with input enabled; an affirmative one re-asks with the first option's `data`, or stops with input disabled when there are no options; the role never changes |
| Chat.SendKeepsValid | frontend/js/main.js:133-227 | every message `sendMessage` handles keeps the invariant |
| Chat.AfterAskKeepsValid | frontend/js/main.js:90-130 | a question asked from a state with a role and input disabled leads to a valid state, whatever `/ask` answers |
| Chat.Next | frontend/js/main.js:45-257 | only a role button or a restart changes the role; with input disabled, typing and the send button change nothing; a request goes out only for a non-empty message sent while input is enabled |
| Chat.NextKeepsValid | frontend/js/main.js:45-257 | every event keeps the invariant: the question-handling states have a role, and the menu and `finished` have input disabled |
| Chat.RunKeepsValid | frontend/js/main.js:45-257 | every run of events from a valid state ends in a valid state |
| Chat.NextCanContinue | frontend/js/main.js:215-218 | from a state with a way on, an event leaves one exactly when it is not an affirmative confirmation without stored options |
| Chat.SendCanContinue | frontend/js/main.js:133-227 | a non-empty message leaves the user a way on exactly when it is not an affirmative confirmation without stored options |
| Chat.AfterAskCanContinue | frontend/js/main.js:104-129 | whatever `/ask` answers, the user has a way on afterwards |
| Chat.InitialValid | frontend/js/main.js:5-7 | the page as loaded satisfies the invariant and accepts input |
| Chat.ConfirmationWithoutData | frontend/js/main.js:216-218 | confirming when the first stored option has no `data` posts an empty question; the backend rejects it and the page offers the menu |
| Chat.NegativeReplyReadAsYes | frontend/js/main.js:216 | "no, necesito otra cosa" counts as a confirmation |
| Chat.UpperCaseYes | frontend/js/main.js:216 | "SÍ" in capitals counts as a confirmation |
| Chat.YesIsAffirmative | frontend/js/main.js:216 | a plain "sí" is unchanged by trimming and counts as a confirmation |
| Chat.SectionFirstThenYesIsStuck | frontend/js/main.js:107-217 | event by event: choosing a role awaits a question; a question answered with `section_found` sends one request and awaits confirmation; an affirmative reply then sends nothing, keeps the state and leaves input disabled, a state with no way on |
| Chat.AskStep | frontend/js/main.js:149-150 | in `awaiting_question`, a typed question goes to `handleQuestion` as trimmed, with input disabled |
| Chat.ConfirmStep | frontend/js/main.js:216-217 | an affirmative reply with no stored options leaves the state as it was, with input disabled and nothing sent |
| Chat.ChooseByNumber | frontend/js/main.js:153-200 | event by event: choosing a role awaits a question; a question answered with `options_found` sends one request and stores the items; typing the number `n` of an item with a URL sends only the summary request for item `n`, and a delivered summary ends at the menu with input disabled |
| Chat.OfferedStep | frontend/js/main.js:104-106 | a question answered with `options_found` sends the question, stores the items and awaits a choice with input enabled |
| Chat.PickByNumber | frontend/js/main.js:153-157 | typing the number of an option with a URL summarizes that option without asking `/refineSearch` |
| Chat.RefinementStep | frontend/js/main.js:134-153 | in `awaiting_refinement`, a non-empty message goes to the refinement logic as trimmed, with input disabled |
| Chat.PickParsed | frontend/js/main.js:153-157 | a text that parses to the number of an option with a URL sends only that option's summary request and, once it is delivered, offers the menu |
| Chat.ChatSession.constructor | frontend/js/main.js:5-7 | the page starts in `awaiting_role`, with no role, no options and input enabled |
| Chat.ChatSession.ShowInitialOptions | frontend/js/main.js:29-42 | the role buttons are shown, the state is `awaiting_role` and input is enabled; role and options are kept |
| Chat.ChatSession.SelectRole | frontend/js/main.js:45-68 | the role is the one chosen, the state is `awaiting_question` and input is enabled; options are kept |
| Chat.ChatSession.ShowSuggestedOptions | frontend/js/main.js:71-88 | the state is `awaiting_refinement` and input is enabled |
| Chat.ChatSession.HandleQuestion | frontend/js/main.js:90-130 | the fields and the requests sent are those `AfterAsk` gives |
| Chat.ChatSession.SendMessage | frontend/js/main.js:133-227 | the fields and the requests sent are those `AfterSend` gives |
| Chat.ChatSession.RestartChat | frontend/js/main.js:230-240 | the role is cleared, the state is `awaiting_role` and input is enabled; options are kept |
| Chat.ChatSession.EndChat | frontend/js/main.js:243-250 | the state is `finished` and input is disabled |
| Chat.ChatSession.ClickSend | frontend/js/main.js:145-146 | the send button, disabled together with the text box, runs `sendMessage` only while it is enabled; the fields and requests are those `Next` gives |
| Chat.ChatSession.HandleKeyPress | frontend/js/main.js:253-257 | Enter sends the message while input is enabled; any other key, or a disabled input, changes nothing |

## Left out

- Rendering is not modelled: `appendMessage`, the HTML built for options, buttons and summaries, `innerHTML`, `scrollTop`, `focus`, and the removal of the "searching" placeholder.
- Timing is not modelled. `setTimeout` callbacks take effect at once, and async handlers do not interleave. The page prevents overlapping requests only by disabling the input.
- Requests are not sent. The page's requests are recorded as values (`Chat.Request`), and each reply is a parameter. A question is recorded by role and message; `Chat.QuestionRequest` gives the body `/ask` receives.
- HTTP, Express routing, CORS, static files, `dotenv` and console logging are not modelled.
- The Gemini calls and the wording of their prompts are not modelled. Each call is an `LlmOutcome` parameter.
- HTML parsing with cheerio is not modelled. A fetched page is given as the text each of the five selectors yields.
- Server.LoadKnowledgeBase: reading and parsing `data/<role>.json` is not modelled. A map from role to parsed items stands for the files; a missing or unparsable file gives `[]`.
- Server.KnowledgeItem: a field missing from a JSON record is the empty string. In the program, `item.title.trim()` on a missing title throws, and the title stage then falls through to the section stage. The model does not capture that case.
- JsText.IsSpace: the set is the full, explicit set of JavaScript WhiteSpace and LineTerminator characters (the set `trim` and `\s` use), not only ASCII.
- JsText.ToLower: only ASCII and the Latin-1 capitals U+00C0 to U+00DE (except U+00D7) are lowered, one character to one character. Latin Extended and other capitals keep their case, and U+0130, which JavaScript lowers to two characters ("i" followed by U+0307), is kept as it is. The two sentinel comparisons of `searchWithGemini` come out as in JavaScript, since no other capital lowers to a character of `no_match_titles` or `no_match_section`. The `includes` test of the confirmation differs: JavaScript accepts "SI" written with U+0130, the model does not.
- JsNumber.ParseInt: integers are unbounded, so numbers beyond 2^53 are not rounded to a double. `-0` is read as 0.
- JsNumber.ParseIntDecimal: stated for non-negative numbers only; the sign is covered separately by `JsNumber.ParseIntMinus`.
- Chat.ChatSession.ShowSuggestedOptions: the options argument only feeds the rendered list, so the method takes none.
- Chat.SummaryReply: the text of a delivered summary is only displayed, so the reply records success or failure only.
- Chat.AfterAsk: a JSON body that is not an object, or a status with an unexpected type, is not modelled. Every delivered `/ask` body is one of the backend's responses.
