/** The conversation state machine of the chat page (frontend/js/main.js).
    The three module-level variables and the enabled flag of the text box
    and its button are the fields of `ChatSession`; every user event is one
    of its methods. Each network exchange is an input: the reply the backend
    sent, or a transport error. Delayed callbacks run at once.

    The pure functions `AfterAsk`, `AfterRefinement`, `AfterSend` and `Next`
    describe each event on a `Snapshot` of the four variables, and the
    methods of `ChatSession` are proved to follow them. */
module Chat {
  import opened Wrappers
  import opened JsText
  import opened JsNumber
  import Server

  datatype ChatState =
    | AwaitingRole
    | AwaitingQuestion
    | AwaitingRefinement
    | AwaitingSectionConfirmation
    | AwaitingMenuChoice
    | Finished

  /** The three roles the role buttons offer. */
  datatype Role = Estudiante | Instructor | Administrador

  /** The role as the buttons pass it and as `/ask` receives it. */
  function RoleName(r: Role): (name: string)
    ensures name != []
  {
    match r
    case Estudiante => "estudiante"
    case Instructor => "instructor"
    case Administrador => "administrador"
  }

  /** `canvasSections[role]`: the Canvas sections offered to each role. */
  function CanvasSections(r: Role): (sections: seq<string>)
    ensures sections != [] && sections[0] == "Anuncios"
  {
    match r
    case Estudiante =>
      ["Anuncios", "Tareas", "Calendario", "Chat", "Colaboraciones", "Conferencias",
       "Navegación del curso", "Foros de discusión", "ePortfolios", "Archivos",
       "Navegación global", "Calificaciones", "Bandeja de entrada", "Módulos", "Páginas",
       "Personas y grupos", "Configuraciones de perfil y del usuario",
       "Editor de contenido enriquecido", "Evaluaciones", "Servicios web",
       "Canvas Student para iOS"]
    case Instructor =>
      ["Anuncios", "Páginas", "Tareas", "Exámenes", "Calificaciones", "Evaluaciones",
       "Personas", "Módulos", "Archivos", "Configuraciones", "Discusiones", "Resultados",
       "Rúbricas", "Colaboraciones"]
    case Administrador =>
      ["Anuncios", "Calendario", "Foros de discusión", "Navegación global",
       "Bandeja de entrada", "Módulos", "Páginas", "Grupos", "Usuarios", "Cursos",
       "Subcuentas", "Ajustes de cuenta", "Ajustes de curso", "Notificaciones de curso",
       "Notificaciones de cuenta", "LTI", "Integraciones", "Analíticas"]
  }

  /** `canvasSections[role].join(', ')`: never empty, so `/ask` never
      rejects a question for its sections. */
  function SectionsText(r: Role): (text: string)
    ensures text != []
  {
    JoinNonEmpty(CanvasSections(r), ", ");
    Join(CanvasSections(r), ", ")
  }

  /** The body `handleQuestion` posts to `/ask`. */
  function QuestionRequest(r: Role, message: string): (q: Server.AskRequest)
    ensures q.message == message && q.role != [] && q.sections != []
  {
    Server.AskRequest(message, RoleName(r), SectionsText(r))
  }

  /** The four variables of the page: the state, the role (`None` is
      `null`), the options of the last `options_found` answer, and whether
      the text box and its button are enabled. */
  datatype Snapshot = Snapshot(
    state: ChatState,
    role: Option<Role>,
    suggestedOptions: seq<Server.KnowledgeItem>,
    inputEnabled: bool)

  /** The page as loaded, before and after the greeting. */
  const Initial: Snapshot := Snapshot(AwaitingRole, None, [], true)

  /** A request the page sends to the backend. A question is posted with
      the role and its sections, as `QuestionRequest` spells out. */
  datatype Request =
    | AskCall(role: Role, message: string)
    | RefineCall(refine: Server.RefineRequest)
    | SummaryCall(summary: Server.SummaryRequest)

  /** The state after an event, and the requests it sent, in order. */
  datatype Step = Step(view: Snapshot, requests: seq<Request>)

  /** What `fetch('/ask')` and `response.json()` produced. */
  datatype AskReply = AskDelivered(response: Server.AskResponse) | AskTransportError

  /** What `fetch('/refineSearch')` and `response.json()` produced. */
  datatype RefineReply = RefineDelivered(response: Server.RefineResponse) | RefineTransportError

  /** Whether `fetch('/getSummary')` and `response.json()` succeeded; the
      summary text itself is only displayed. */
  datatype SummaryReply = SummaryDelivered | SummaryTransportError

  /** One message typed by the user and the replies its requests get. */
  datatype Input = Input(raw: string, ask: AskReply, refine: RefineReply, summary: SummaryReply)

  predicate OffersOptions(reply: AskReply)
  {
    reply.AskDelivered? && reply.response.AskAnswered? && reply.response.result.OptionsFound?
  }

  predicate NamesSection(reply: AskReply)
  {
    reply.AskDelivered? && reply.response.AskAnswered? && reply.response.result.SectionFound?
  }

  /** `handleQuestion(message)`, run after `sendMessage` disabled the input.
      Without a role `canvasSections[null].join` throws before any request,
      and the error path re-enables the input. Otherwise one question is
      posted and the answer routes the conversation: `options_found` stores
      the items and awaits a choice, `section_found` awaits a confirmation,
      any other answer (`no_match`, or a 400 body without a status) offers
      the menu with the input still disabled, and a transport error keeps
      the state and re-enables the input. The role never changes, and the
      options change only on `options_found`. */
  function AfterAsk(v: Snapshot, message: string, reply: AskReply): (s: Step)
    ensures s.view.role == v.role
    ensures v.role.None? ==> s == Step(v.(inputEnabled := true), [])
    ensures v.role.Some? ==> s.requests == [AskCall(v.role.value, message)]
    ensures v.role.Some? && OffersOptions(reply) ==>
      s.view == v.(state := AwaitingRefinement, suggestedOptions := reply.response.result.items,
                   inputEnabled := true)
    ensures v.role.Some? && NamesSection(reply) ==>
      s.view == v.(state := AwaitingSectionConfirmation, inputEnabled := true)
    ensures v.role.Some? && reply.AskDelivered? && !OffersOptions(reply) && !NamesSection(reply) ==>
      s.view == v.(state := AwaitingMenuChoice)
    ensures reply.AskTransportError? ==> s.view == v.(inputEnabled := true)
  {
    match v.role
    case None => Step(v.(inputEnabled := true), [])
    case Some(r) =>
      var sent := [AskCall(r, message)];
      if OffersOptions(reply) then
        Step(v.(state := AwaitingRefinement, suggestedOptions := reply.response.result.items,
                inputEnabled := true), sent)
      else if NamesSection(reply) then
        Step(v.(state := AwaitingSectionConfirmation, inputEnabled := true), sent)
      else if reply.AskDelivered? then
        Step(v.(state := AwaitingMenuChoice), sent)
      else
        Step(v.(inputEnabled := true), sent)
  }

  /** The URL `sendMessage` settles on in `awaiting_refinement`: the option
      the typed number picks (`direct`), or else the URL of a `match_found`
      answer; the empty string (falsy, like `null`) when neither gives
      one. */
  function ChosenUrl(direct: Option<Server.KnowledgeItem>, refine: RefineReply): (url: string)
    ensures direct.Some? ==> url == direct.value.url
    ensures direct.None? && url != [] ==> refine == RefineDelivered(Server.MatchFound(url))
    ensures direct.None? && refine.RefineDelivered? && refine.response.MatchFound? ==>
      url == refine.response.url
  {
    match direct
    case Some(option) => option.url
    case None =>
      if refine.RefineDelivered? && refine.response.MatchFound? then refine.response.url else []
  }

  /** `sendMessage` in `awaiting_refinement`, after the input was disabled.
      A number that picks an option skips `/refineSearch`; anything else is
      sent there with the current options. A URL obtained either way is
      summarized, and a delivered summary offers the menu with the input
      still disabled; when the summary fails, or no URL is obtained (no
      match, an error status, a transport error, an option without URL), the
      state stays and the input is re-enabled. Role and options are kept. */
  function AfterRefinement(v: Snapshot, text: string, refine: RefineReply, summary: SummaryReply): (s: Step)
    ensures s.view.role == v.role && s.view.suggestedOptions == v.suggestedOptions
    ensures var direct := Server.SelectOption(ParseInt(text), v.suggestedOptions);
      var url := ChosenUrl(direct, refine);
      && s.requests == (if direct.None? then [RefineCall(Server.RefineRequest(text, v.suggestedOptions))] else [])
                       + (if url != [] then [SummaryCall(Server.SummaryRequest(url))] else [])
      && (url != [] && summary.SummaryDelivered? ==> s.view == v.(state := AwaitingMenuChoice))
      && (url == [] || summary.SummaryTransportError? ==> s.view == v.(inputEnabled := true))
  {
    var direct := Server.SelectOption(ParseInt(text), v.suggestedOptions);
    var asked := if direct.Some? then [] else [RefineCall(Server.RefineRequest(text, v.suggestedOptions))];
    var url := ChosenUrl(direct, refine);
    var tail := if url != [] then [SummaryCall(Server.SummaryRequest(url))] else [];
    var view := if url != [] && summary.SummaryDelivered? then v.(state := AwaitingMenuChoice)
                else v.(inputEnabled := true);
    Step(view, asked + tail)
  }

  /** `text.toLowerCase().includes("sí") || text.toLowerCase().includes("si")`:
      a reply that contains "sí" or "si" as typed is affirmative, and one
      shorter than two characters never is. */
  predicate IsAffirmative(text: string): (yes: bool)
    ensures yes ==> |text| >= 2
    ensures Contains(text, "sí") || Contains(text, "si") ==> yes
  {
    LowerKeepsContains(text, "sí");
    LowerKeepsContains(text, "si");
    Contains(ToLower(text), "sí") || Contains(ToLower(text), "si")
  }

  /** The confirmation test ignores case: a reply and its lower case are
      judged alike. */
  lemma AffirmativeIgnoresCase(text: string)
    ensures IsAffirmative(ToLower(text)) == IsAffirmative(text)
  {
    ToLowerIdempotent(text);
  }

  /** A "yes" starts at `i`: the character there lowers to `s` and the next
      one to `i` or `í`. */
  predicate YesAt(text: string, i: int)
  {
    0 <= i < |text| - 1 && LowerChar(text[i]) == 's'
    && (LowerChar(text[i + 1]) == 'i' || LowerChar(text[i + 1]) == 'í')
  }

  /** The confirmation test, letter by letter: a reply is affirmative
      exactly when a "yes" starts somewhere in it, in any case. */
  lemma AffirmativeLetters(text: string)
    ensures IsAffirmative(text) <==> exists i :: YesAt(text, i)
  {
    if IsAffirmative(text) {
      AffirmativeHasYes(text);
    }
    if i :| YesAt(text, i) {
      YesIsFound(text, i);
    }
  }

  lemma AffirmativeHasYes(text: string)
    requires IsAffirmative(text)
    ensures exists i :: YesAt(text, i)
  {
    var t := ToLower(text);
    if Contains(t, "sí") {
      var i: nat :| OccursAt(t, "sí", i);
      PairAt(t, "sí", i);
      assert YesAt(text, i);
    } else {
      var i: nat :| OccursAt(t, "si", i);
      PairAt(t, "si", i);
      assert YesAt(text, i);
    }
  }

  lemma YesIsFound(text: string, i: nat)
    requires YesAt(text, i)
    ensures IsAffirmative(text)
  {
    var t := ToLower(text);
    if t[i + 1] == 'i' {
      PairAt(t, "si", i);
    } else {
      PairAt(t, "sí", i);
    }
  }

  /** A two-character text occurs at `i` exactly when its two characters
      stand at `i` and `i + 1`. */
  lemma PairAt(t: string, w: string, i: nat)
    requires |w| == 2
    ensures OccursAt(t, w, i) <==> i + 1 < |t| && t[i] == w[0] && t[i + 1] == w[1]
  {
    if i + 1 < |t| {
      assert t[i..i + 2] == [t[i], t[i + 1]];
      assert w == [w[0], w[1]];
    }
  }

  /** The hazard of an affirmative confirmation: with no stored options,
      `suggestedOptions[0].data` throws and the handler stops. */
  predicate ConfirmsWithoutOptions(v: Snapshot, text: string)
  {
    v.state == AwaitingSectionConfirmation && IsAffirmative(text) && v.suggestedOptions == []
  }

  /** `sendMessage()`: a message that is empty once trimmed, and any message
      in `awaiting_role`, changes nothing. Otherwise the input is disabled
      and the state decides: a question is asked; a refinement is resolved;
      an affirmative confirmation asks again with the first stored option's
      `data` (and stops with the input disabled when there is none), any
      other confirmation reply goes back to `awaiting_question` with the
      input enabled; in `awaiting_menu_choice` and `finished` no branch
      applies and only the input is left disabled. The role never changes. */
  function AfterSend(v: Snapshot, input: Input): (s: Step)
    ensures s.view.role == v.role
    ensures Trim(input.raw) == [] || v.state == AwaitingRole ==> s == Step(v, [])
    ensures Trim(input.raw) != [] && v.state in {AwaitingMenuChoice, Finished} ==>
      s == Step(v.(inputEnabled := false), [])
    ensures Trim(input.raw) != [] && v.state == AwaitingQuestion ==>
      s == AfterAsk(v.(inputEnabled := false), Trim(input.raw), input.ask)
    ensures Trim(input.raw) != [] && v.state == AwaitingRefinement ==>
      s == AfterRefinement(v.(inputEnabled := false), Trim(input.raw), input.refine, input.summary)
    ensures Trim(input.raw) != [] && v.state == AwaitingSectionConfirmation ==>
      if !IsAffirmative(Trim(input.raw)) then
        s == Step(v.(state := AwaitingQuestion, inputEnabled := true), [])
      else if v.suggestedOptions == [] then
        s == Step(v.(inputEnabled := false), [])
      else
        s == AfterAsk(v.(inputEnabled := false), v.suggestedOptions[0].data, input.ask)
  {
    var text := Trim(input.raw);
    if text == [] || v.state == AwaitingRole then Step(v, [])
    else
      var off := v.(inputEnabled := false);
      match v.state
      case AwaitingQuestion => AfterAsk(off, text, input.ask)
      case AwaitingRefinement => AfterRefinement(off, text, input.refine, input.summary)
      case AwaitingSectionConfirmation =>
        if !IsAffirmative(text) then Step(v.(state := AwaitingQuestion, inputEnabled := true), [])
        else if v.suggestedOptions == [] then Step(off, [])
        else AfterAsk(off, v.suggestedOptions[0].data, input.ask)
      case _ => Step(off, [])
  }

  /** A user event: a role button, the send button, a key in the text box,
      or one of the two menu buttons. Stale role and menu buttons stay on
      the page, so those can be pressed in every state; the send button is
      disabled together with the text box. */
  datatype Event =
    | PickRole(r: Role)
    | Send(input: Input)
    | KeyPress(key: string, input: Input)
    | Restart
    | End

  /** The effect of one event: `selectRole`, `sendMessage` from the send
      button (which does nothing while disabled), `handleKeyPress` (which
      sends only on Enter while the input is enabled), `restartChat` and
      `endChat`. Only a role button or a restart changes the role; with the
      input disabled, typing and the send button change nothing; and a
      request goes out only for a message that `sendMessage` handles. */
  function Next(v: Snapshot, e: Event): (s: Step)
    ensures e.PickRole? ==> s.view.role == Some(e.r)
    ensures e.Restart? ==> s.view.role == None
    ensures !e.PickRole? && !e.Restart? ==> s.view.role == v.role
    ensures !v.inputEnabled && (e.Send? || e.KeyPress?) ==> s == Step(v, [])
    ensures s.requests != [] ==> Sends(v, e)
  {
    match e
    case PickRole(r) => Step(v.(state := AwaitingQuestion, role := Some(r), inputEnabled := true), [])
    case Send(input) => if v.inputEnabled then AfterSend(v, input) else Step(v, [])
    case KeyPress(key, input) => if key == "Enter" && v.inputEnabled then AfterSend(v, input) else Step(v, [])
    case Restart => Step(v.(state := AwaitingRole, role := None, inputEnabled := true), [])
    case End => Step(v.(state := Finished, inputEnabled := false), [])
  }

  /** A run of events from `v`: the final state and every request sent. */
  function Run(v: Snapshot, events: seq<Event>): Step
    decreases |events|
  {
    if events == [] then Step(v, [])
    else
      var first := Next(v, events[0]);
      var rest := Run(first.view, events[1..]);
      Step(rest.view, first.requests + rest.requests)
  }

  /** The invariant of the conversation: the states that send a question
      have a role, and the input is disabled once the menu or the farewell
      is shown. */
  predicate Valid(v: Snapshot)
  {
    && (v.state in {AwaitingQuestion, AwaitingRefinement, AwaitingSectionConfirmation} ==> v.role.Some?)
    && (v.state in {AwaitingMenuChoice, Finished} ==> !v.inputEnabled)
  }

  /** The user has a way on: the text box is enabled, or the menu buttons
      are shown, or the conversation has ended. */
  predicate CanContinue(v: Snapshot)
  {
    v.inputEnabled || v.state == AwaitingMenuChoice || v.state == Finished
  }

  /** The event sends the text `Trim(raw)` through `sendMessage`. */
  predicate Sends(v: Snapshot, e: Event)
  {
    (e.Send? || (e.KeyPress? && e.key == "Enter")) && v.inputEnabled && Trim(e.input.raw) != []
  }

  lemma NextKeepsValid(v: Snapshot, e: Event)
    requires Valid(v)
    ensures Valid(Next(v, e).view)
  {
    if (e.Send? || (e.KeyPress? && e.key == "Enter")) && v.inputEnabled {
      assert Next(v, e) == AfterSend(v, e.input);
      SendKeepsValid(v, e.input);
    }
  }

  /** The same for a message that `sendMessage` handles. */
  lemma SendKeepsValid(v: Snapshot, input: Input)
    requires Valid(v)
    ensures Valid(AfterSend(v, input).view)
  {
    var text := Trim(input.raw);
    var off := v.(inputEnabled := false);
    if text == [] || v.state == AwaitingRole {
    } else if v.state == AwaitingQuestion {
      AfterAskKeepsValid(off, text, input.ask);
    } else if v.state == AwaitingSectionConfirmation && IsAffirmative(text) && v.suggestedOptions != [] {
      AfterAskKeepsValid(off, v.suggestedOptions[0].data, input.ask);
    }
  }

  /** A question asked from a state that has a role leads to a valid
      state. */
  lemma AfterAskKeepsValid(v: Snapshot, message: string, reply: AskReply)
    requires Valid(v) && !v.inputEnabled && v.state in {AwaitingQuestion, AwaitingSectionConfirmation}
    ensures Valid(AfterAsk(v, message, reply).view)
  {
  }

  /** Every run from a valid state ends in a valid state. */
  lemma {:induction false} RunKeepsValid(v: Snapshot, events: seq<Event>)
    requires Valid(v)
    ensures Valid(Run(v, events).view)
    decreases |events|
  {
    if events != [] {
      NextKeepsValid(v, events[0]);
      RunKeepsValid(Next(v, events[0]).view, events[1..]);
    }
  }

  /** From a state where the user has a way on, an event leaves one exactly
      when it is not an affirmative confirmation without stored options:
      that one leaves the text box disabled with no reply and no menu. */
  lemma NextCanContinue(v: Snapshot, e: Event)
    requires CanContinue(v)
    ensures CanContinue(Next(v, e).view) <==> !(Sends(v, e) && ConfirmsWithoutOptions(v, Trim(e.input.raw)))
  {
    if Sends(v, e) {
      assert Next(v, e) == AfterSend(v, e.input);
      SendCanContinue(v, e.input);
    }
  }

  /** The same for a message that `sendMessage` handles. */
  lemma SendCanContinue(v: Snapshot, input: Input)
    requires CanContinue(v) && Trim(input.raw) != []
    ensures CanContinue(AfterSend(v, input).view) <==> !ConfirmsWithoutOptions(v, Trim(input.raw))
  {
    var text := Trim(input.raw);
    var off := v.(inputEnabled := false);
    if v.state == AwaitingQuestion {
      AfterAskCanContinue(off, text, input.ask);
    } else if v.state == AwaitingSectionConfirmation && IsAffirmative(text) && v.suggestedOptions != [] {
      AfterAskCanContinue(off, v.suggestedOptions[0].data, input.ask);
    }
  }

  /** Whatever `/ask` answers, the user has a way on afterwards. */
  lemma AfterAskCanContinue(v: Snapshot, message: string, reply: AskReply)
    ensures CanContinue(AfterAsk(v, message, reply).view)
  {
  }

  /** The page as loaded is valid. */
  lemma InitialValid()
    ensures Valid(Initial) && CanContinue(Initial)
  {
  }

  /** The question a role asks always passes the checks of `/ask` when the
      message is not empty, and an empty one (the `data` of an option
      without it) is rejected, which the page then treats as `no_match`. */
  lemma QuestionRequestAccepted(r: Role, message: string, files: map<string, seq<Server.KnowledgeItem>>,
                                t: Server.LlmOutcome, s: Server.LlmOutcome)
    ensures Server.Ask(QuestionRequest(r, message), files, t, s).AskBadRequest? <==> message == []
  {
  }

  /** Confirming a section whose first stored option has no `data`: the
      backend rejects the question, and the page offers the menu. */
  lemma ConfirmationWithoutData(v: Snapshot, raw: string, files: map<string, seq<Server.KnowledgeItem>>,
                                t: Server.LlmOutcome, s: Server.LlmOutcome, refine: RefineReply, summary: SummaryReply)
    requires v.state == AwaitingSectionConfirmation && v.role.Some?
    requires Trim(raw) != [] && IsAffirmative(Trim(raw))
    requires v.suggestedOptions != [] && v.suggestedOptions[0].data == []
    ensures var answer := Server.Ask(QuestionRequest(v.role.value, []), files, t, s);
      AfterSend(v, Input(raw, AskDelivered(answer), refine, summary)).view
        == v.(state := AwaitingMenuChoice, inputEnabled := false)
  {
    QuestionRequestAccepted(v.role.value, [], files, t, s);
  }

  /** Because the check is a substring test, a reply that says no can be
      read as yes: "no, necesito otra cosa" contains "si". */
  lemma NegativeReplyReadAsYes()
    ensures IsAffirmative("no, necesito otra cosa")
  {
    var t := ToLower("no, necesito otra cosa");
    assert t[8] == 's' && t[9] == 'i';
    assert OccursAt(t, "si", 8);
  }

  /** An upper-case "SÍ" is lowered to "sí" and accepted. */
  lemma UpperCaseYes()
    ensures IsAffirmative("SÍ")
  {
    var t := ToLower("SÍ");
    assert t[0] == 's' && t[1] == 'í';
    assert OccursAt(t, "sí", 0);
  }

  /** The hazard as it happens: a first question is answered with a
      section, the user confirms, and since no options were ever stored the
      handler stops with the text box disabled, in the confirmation state,
      without sending anything more. Each conjunct is one event of the run. */
  lemma SectionFirstThenYesIsStuck(role: Role, question: string, yes: string, section: string,
                                   refine: RefineReply, summary: SummaryReply)
    requires question != [] && Trim(question) == question
    requires Trim(yes) != [] && IsAffirmative(Trim(yes))
    ensures var ask := AskDelivered(Server.AskAnswered(Server.SectionFound(section)));
      var asking := Snapshot(AwaitingQuestion, Some(role), [], true);
      var confirming := Snapshot(AwaitingSectionConfirmation, Some(role), [], true);
      && Next(Initial, PickRole(role)) == Step(asking, [])
      && Next(asking, Send(Input(question, ask, refine, summary))) == Step(confirming, [AskCall(role, question)])
      && Next(confirming, Send(Input(yes, ask, refine, summary))) == Step(confirming.(inputEnabled := false), [])
      && !CanContinue(confirming.(inputEnabled := false))
  {
    var ask := AskDelivered(Server.AskAnswered(Server.SectionFound(section)));
    AskStep(Snapshot(AwaitingQuestion, Some(role), [], true), Input(question, ask, refine, summary));
    ConfirmStep(Snapshot(AwaitingSectionConfirmation, Some(role), [], true), Input(yes, ask, refine, summary));
  }

  /** A question typed in `awaiting_question` is sent as typed once trimmed. */
  lemma AskStep(v: Snapshot, input: Input)
    requires v.state == AwaitingQuestion && v.inputEnabled && Trim(input.raw) != []
    ensures Next(v, Send(input)) == AfterAsk(v.(inputEnabled := false), Trim(input.raw), input.ask)
  {
  }

  /** An affirmative reply with no stored options stops the handler. */
  lemma ConfirmStep(v: Snapshot, input: Input)
    requires v.state == AwaitingSectionConfirmation && v.suggestedOptions == []
    requires Trim(input.raw) != [] && IsAffirmative(Trim(input.raw))
    ensures Next(v, Send(input)) == Step(v.(inputEnabled := false), [])
  {
  }

  /** The plain "sí" and "SÍ" both confirm, and a lone "sí" is the whole
      trimmed message. */
  lemma YesIsAffirmative()
    ensures Trim("sí") == "sí" && IsAffirmative("sí")
    ensures IsAffirmative("SÍ")
  {
    assert OccursAt(ToLower("sí"), "sí", 0);
    UpperCaseYes();
  }

  /** The intended path: a user of any role asks, the backend offers some
      articles, the user types the number of one of them, and the summary
      arrives; `/refineSearch` is never called and the menu is offered.
      Each conjunct is one event of the run. */
  lemma ChooseByNumber(role: Role, question: string, items: seq<Server.KnowledgeItem>, n: nat, refine: RefineReply)
    requires question != [] && Trim(question) == question
    requires 1 <= n <= |items| && items[n - 1].url != []
    ensures var ask := AskDelivered(Server.AskAnswered(Server.OptionsFound(items)));
      var asking := Snapshot(AwaitingQuestion, Some(role), [], true);
      var choosing := Snapshot(AwaitingRefinement, Some(role), items, true);
      && Next(Initial, PickRole(role)) == Step(asking, [])
      && Next(asking, Send(Input(question, ask, refine, SummaryDelivered))) == Step(choosing, [AskCall(role, question)])
      && Next(choosing, Send(Input(Decimal(n), ask, refine, SummaryDelivered)))
        == Step(Snapshot(AwaitingMenuChoice, Some(role), items, false),
                [SummaryCall(Server.SummaryRequest(items[n - 1].url))])
  {
    var ask := AskDelivered(Server.AskAnswered(Server.OptionsFound(items)));
    OfferedStep(Snapshot(AwaitingQuestion, Some(role), [], true), question, items, refine, SummaryDelivered);
    PickByNumber(Snapshot(AwaitingRefinement, Some(role), items, true), n, Input(Decimal(n), ask, refine, SummaryDelivered));
  }

  /** A question answered with `options_found` stores the items and awaits
      a choice. */
  lemma OfferedStep(v: Snapshot, question: string, items: seq<Server.KnowledgeItem>,
                    refine: RefineReply, summary: SummaryReply)
    requires v.state == AwaitingQuestion && v.role.Some? && v.inputEnabled
    requires question != [] && Trim(question) == question
    ensures var ask := AskDelivered(Server.AskAnswered(Server.OptionsFound(items)));
      Next(v, Send(Input(question, ask, refine, summary)))
        == Step(v.(state := AwaitingRefinement, suggestedOptions := items), [AskCall(v.role.value, question)])
  {
    var ask := AskDelivered(Server.AskAnswered(Server.OptionsFound(items)));
    AskStep(v, Input(question, ask, refine, summary));
  }

  /** In `awaiting_refinement`, typing the number of an option with a URL
      summarizes that option without asking `/refineSearch`. */
  lemma PickByNumber(v: Snapshot, n: nat, input: Input)
    requires v.state == AwaitingRefinement && v.inputEnabled && 1 <= n <= |v.suggestedOptions|
    requires v.suggestedOptions[n - 1].url != []
    requires input.raw == Decimal(n) && input.summary == SummaryDelivered
    ensures Next(v, Send(input))
      == Step(v.(state := AwaitingMenuChoice, inputEnabled := false),
              [SummaryCall(Server.SummaryRequest(v.suggestedOptions[n - 1].url))])
  {
    ParseIntOfDecimal(n);
    RefinementStep(v, input);
    PickParsed(v.(inputEnabled := false), Decimal(n), n, input.refine);
  }

  /** In `awaiting_refinement`, a non-empty message goes to the refinement
      logic as trimmed, with input disabled. */
  lemma RefinementStep(v: Snapshot, input: Input)
    requires v.state == AwaitingRefinement && v.inputEnabled && Trim(input.raw) != []
    ensures Next(v, Send(input))
      == AfterRefinement(v.(inputEnabled := false), Trim(input.raw), input.refine, input.summary)
  {
  }

  /** A text that parses to the number of an option with a URL summarizes
      that option directly. */
  lemma PickParsed(v: Snapshot, text: string, n: nat, refine: RefineReply)
    requires 1 <= n <= |v.suggestedOptions| && v.suggestedOptions[n - 1].url != []
    requires ParseInt(text) == Some(n)
    ensures AfterRefinement(v, text, refine, SummaryDelivered)
      == Step(v.(state := AwaitingMenuChoice), [SummaryCall(Server.SummaryRequest(v.suggestedOptions[n - 1].url))])
  {
    Server.SelectNumbered(ParseInt(text), v.suggestedOptions, n);
  }

  /** The page's variables and the enabled flag of its text box. */
  class ChatSession {
    var state: ChatState
    var role: Option<Role>
    var suggestedOptions: seq<Server.KnowledgeItem>
    var inputEnabled: bool

    function Current(): Snapshot
      reads this
    {
      Snapshot(state, role, suggestedOptions, inputEnabled)
    }

    constructor()
      ensures Current() == Initial
    {
      state := AwaitingRole;
      role := None;
      suggestedOptions := [];
      inputEnabled := true;
    }

    /** `showInitialOptions`: the greeting and the role buttons. */
    method ShowInitialOptions()
      modifies this
      ensures Current() == old(Current()).(state := AwaitingRole, inputEnabled := true)
    {
      state := AwaitingRole;
      inputEnabled := true;
    }

    /** `selectRole(role)`, with its delayed greeting applied at once. */
    method SelectRole(r: Role)
      modifies this
      ensures Current() == old(Current()).(state := AwaitingQuestion, role := Some(r), inputEnabled := true)
      ensures Current() == Next(old(Current()), PickRole(r)).view
    {
      role := Some(r);
      state := AwaitingQuestion;
      inputEnabled := true;
    }

    /** `showSuggestedOptions`: the options are listed and a choice is
        awaited with the input enabled. */
    method ShowSuggestedOptions()
      modifies this
      ensures Current() == old(Current()).(state := AwaitingRefinement, inputEnabled := true)
    {
      state := AwaitingRefinement;
      inputEnabled := true;
    }

    /** `handleQuestion(message)`. */
    method HandleQuestion(message: string, reply: AskReply) returns (requests: seq<Request>)
      modifies this
      ensures Step(Current(), requests) == AfterAsk(old(Current()), message, reply)
    {
      if role.None? {
        inputEnabled := true;
        return [];
      }
      requests := [AskCall(role.value, message)];
      match reply {
        case AskTransportError =>
          inputEnabled := true;
        case AskDelivered(response) =>
          if OffersOptions(reply) {
            suggestedOptions := response.result.items;
            ShowSuggestedOptions();
          } else if NamesSection(reply) {
            state := AwaitingSectionConfirmation;
            inputEnabled := true;
          } else {
            state := AwaitingMenuChoice;
          }
      }
    }

    /** `sendMessage()` for the text typed in `input.raw`. */
    method SendMessage(input: Input) returns (requests: seq<Request>)
      modifies this
      ensures Step(Current(), requests) == AfterSend(old(Current()), input)
    {
      requests := [];
      var text := Trim(input.raw);
      if text == [] || state == AwaitingRole {
        return;
      }
      inputEnabled := false;
      if state == AwaitingQuestion {
        requests := HandleQuestion(text, input.ask);
      } else if state == AwaitingRefinement {
        var url: string := [];
        match Server.SelectOption(ParseInt(text), suggestedOptions) {
          case Some(option) =>
            url := option.url;
          case None =>
            requests := [RefineCall(Server.RefineRequest(text, suggestedOptions))];
            if input.refine.RefineDelivered? && input.refine.response.MatchFound? {
              url := input.refine.response.url;
            }
        }
        if url != [] {
          requests := requests + [SummaryCall(Server.SummaryRequest(url))];
          if input.summary.SummaryDelivered? {
            state := AwaitingMenuChoice;
          } else {
            inputEnabled := true;
          }
        } else {
          inputEnabled := true;
        }
      } else if state == AwaitingSectionConfirmation {
        if !IsAffirmative(text) {
          state := AwaitingQuestion;
          inputEnabled := true;
        } else if suggestedOptions != [] {
          requests := HandleQuestion(suggestedOptions[0].data, input.ask);
        }
      }
    }

    /** `restartChat()`, with the delayed `showInitialOptions` applied at
        once. */
    method RestartChat()
      modifies this
      ensures Current() == old(Current()).(state := AwaitingRole, role := None, inputEnabled := true)
      ensures Current() == Next(old(Current()), Restart).view
    {
      role := None;
      state := AwaitingRole;
      ShowInitialOptions();
      inputEnabled := true;
    }

    /** `endChat()`. */
    method EndChat()
      modifies this
      ensures Current() == old(Current()).(state := Finished, inputEnabled := false)
      ensures Current() == Next(old(Current()), End).view
    {
      state := Finished;
      inputEnabled := false;
    }

    /** The send button's `onclick`: `sendMessage()`, which the page allows
        only while the button is enabled. */
    method ClickSend(input: Input) returns (requests: seq<Request>)
      modifies this
      ensures Step(Current(), requests) == Next(old(Current()), Send(input))
    {
      requests := [];
      if inputEnabled {
        requests := SendMessage(input);
      }
    }

    /** `handleKeyPress(event)`: Enter sends while the input is enabled. */
    method HandleKeyPress(key: string, input: Input) returns (requests: seq<Request>)
      modifies this
      ensures Step(Current(), requests) == Next(old(Current()), KeyPress(key, input))
    {
      requests := [];
      if key == "Enter" && inputEnabled {
        requests := SendMessage(input);
      }
    }
  }
}
