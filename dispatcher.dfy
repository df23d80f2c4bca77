/**
  What one inbound message does (server.js:138-192 and the stage chain of the
  `POST /webhook` handler, server.js:216-300), as a function of the state before it:
  the session store and the two cache snapshots. The local hour, the clock and the
  text each sheet would serve are inputs; the result is the stage that acted, the
  state after it and the sends and alerts it made, in order.
 */
module Dispatcher {
  import opened Options
  import opened Text
  import opened Events
  import opened Sessions
  import Forms
  import Inventory
  import Rules
  import Catalog

  /** The longest custom-card text kept (server.js:228). */
  const CardLimit: nat := 500

  /** The greeting words that bring up the main menu (server.js:240). */
  const MenuWords: seq<string> := ["hola", "menu", "menú", "inicio", "start"]

  /** The phrases that signal a customer wants to buy (server.js:289). */
  const CloseIntentPhrases: seq<string> :=
    ["lo compro", "comprar", "confirmo", "resérvame", "enviar", "pago contraentrega", "lo quiero", "se entrega a las"]

  /** The configuration the core reads: the business-hour window, and per sheet whether a URL is set and its TTL in milliseconds. */
  datatype Config = Config(businessStart: int, businessEnd: int,
                           inventoryUrlSet: bool, inventoryTtl: int,
                           functionsUrlSet: bool, functionsTtl: int)

  /** The inbound message: sender, whether its type is "text", and the text body as delivered. */
  datatype Message = Message(from: string, isText: bool, body: string)

  /** The outside world at the moment the message is handled. */
  datatype Env = Env(config: Config, hour: int, now: int,
                     inventoryFeed: Catalog.Fetch, functionsFeed: Catalog.Fetch)

  /** The process-wide state: the session map and the two cache snapshots. */
  datatype State = State(sessions: Store,
                         inventory: Catalog.Snapshot<Inventory.Item>,
                         functions: Catalog.Snapshot<Rules.Rule>)

  /** The stages of the chain, in order; `RuleFeedError` is the rules loader throwing, which ends the handler with no reply. */
  datatype Stage =
    | OutsideHours | CardCapture | FormContinuation | Menu | Favorites
    | InventoryReply | CloseIntent | DynamicRule | Fallback | RuleFeedError

  datatype Outcome = Outcome(stage: Stage, state: State, events: seq<Event>)

  /** A helper's verdict (`true` when it handled the message), the sessions after it and what it sent. */
  datatype Step = Step(handled: bool, sessions: Store, events: seq<Event>)

  /** `isBusinessHours()` on the local hour: the half-open window `[start, end)`, with no wrap-around. */
  predicate IsBusinessHours(hour: int, start: int, end: int) {
    hour >= start && hour < end
  }

  /** A window whose start is not before its end is never open. */
  lemma EmptyWindowNeverOpen(hour: int, start: int, end: int)
    requires start >= end
    ensures !IsBusinessHours(hour, start, end)
  {
  }

  /** `type === "text" ? (msg.text?.body || "").trim() : ""`. */
  function MessageText(m: Message): string {
    if m.isText then Trim(m.body) else ""
  }

  /** `CLOSE_INTENT.some(k => lower.includes(k))`. */
  predicate HasCloseIntent(lower: string) {
    exists k :: 0 <= k < |CloseIntentPhrases| && Contains(lower, CloseIntentPhrases[k])
  }

  /**
    `handleFormIfAny(from, text)`: with no stored form, nothing happens; otherwise the
    answer is recorded and the next field is asked for, or the form is complete:
    the thanks message, an alert with every answer, and the form cleared.
   */
  function FormStep(m: Store, from: string, text: string): (st: Step)
    requires Valid(m)
    ensures st.handled <==> FormOf(m, from).Some?
    ensures !st.handled ==> st.sessions == m && st.events == []
  {
    match FormOf(m, from)
    case None => Step(false, m, [])
    case Some(f) =>
      var g := Forms.Answer(f, text);
      if g.i < |g.fields| then
        Step(true, WithForm(m, from, g), [Send(from, FormNextField(g.fields[g.i]))])
      else
        Step(true, WithoutForm(m, from),
             [Send(from, FormThanks(g.thanks)),
              Alert("Formulario: " + g.title, from, "", "", Forms.Summary(g.data))])
  }

  /** The action of one rule the loop stopped at (server.js:151-170). */
  function RuleAction(m: Store, from: string, r: Rules.Rule): Step {
    if r.kind == "TEXT" then
      Step(true, m, [Send(from, RuleText(r.payload1))]
                    + (if r.payload2 != "" then [Alert("Función TEXT", from, "", "", r.payload2)] else []))
    else if r.kind == "ALERT" then
      Step(true, m, [Alert(if r.payload1 == "" then "Alerta" else r.payload1, from, "", "", r.payload2),
                     Send(from, AlertAcknowledged)])
    else
      var fields := Rules.FormFields(r.payload1);
      if fields == [] then Step(false, m, [])
      else
        Step(true, WithForm(m, from, Forms.Start(r.trigger, fields, r.payload2)),
             [Send(from, FormFieldList(fields)), Send(from, FormFirstField(fields[0]))])
  }

  /** The loop of `tryHandleDynamicFeature` over the loaded rules: only the first actionable rule acts. */
  function RuleStep(m: Store, from: string, text: string, rules: seq<Rules.Rule>): (st: Step)
    ensures !st.handled ==> st.sessions == m && st.events == []
    ensures (forall k :: 0 <= k < |rules| ==> !Rules.Actionable(rules[k], Lower(text))) ==> st == Step(false, m, [])
  {
    match Rules.FirstActionable(rules, Lower(text))
    case None => Step(false, m, [])
    case Some(k) => RuleAction(m, from, rules[k])
  }

  /** The replies for a found item (server.js:266-282). */
  function ItemReply(from: string, item: Inventory.Item): seq<Event> {
    if !Inventory.InStock(item) then
      [Send(from, OutOfStock(item.name)),
       Alert("Sin stock", from, item.name, item.code, "Inventario sin stock")]
    else
      [Send(from, Available(item.name))]
      + (if item.price.Int? && item.price.value > 0 then [Send(from, PriceQuote(item.price.value))] else [])
      + [Send(from, DeliveryDetailsRequest)]
  }

  /** The inventory load and match as written (server.js:264-265); a load error is caught and means "no item". */
  function InventoryLookup(s: State, text: string, env: Env): (State, Option<Inventory.Item>) {
    var r := Catalog.Load(s.inventory, env.config.inventoryUrlSet, env.now, env.config.inventoryTtl,
                          env.inventoryFeed, Inventory.Decode);
    (s.(inventory := r.snapshot),
     if r.result.Rows? then Inventory.FindItemByTextAsWritten(r.result.rows, text) else None)
  }

  /**
    The webhook's stage chain: business hours, card capture, form continuation, then
    the stages from the menu words on; the first stage that applies is the only one that acts.
   */
  function Dispatch(s: State, msg: Message, env: Env): Outcome
    requires Valid(s.sessions)
  {
    if !IsBusinessHours(env.hour, env.config.businessStart, env.config.businessEnd) then
      Outcome(OutsideHours, s, [Send(msg.from, HoursNotice)])
    else
      FromCard(s, msg, env)
  }

  /** The card-capture stage and the ones after it (server.js:226-300). */
  function FromCard(s: State, msg: Message, env: Env): Outcome
    requires Valid(s.sessions)
  {
    var from := msg.from;
    if msg.isText && AwaitingCard(s.sessions, from) then
      var card := Take(MessageText(msg), CardLimit);
      Outcome(CardCapture, s.(sessions := WithAwaitingCard(s.sessions, from, false)),
              [Send(from, CardEcho(card)),
               Alert("Tarjeta personalizada", from, "", "", card),
               Send(from, DeliveryDetailsRequest)])
    else
      FromForm(s, msg, env)
  }

  /** The form-continuation stage and the ones after it (server.js:236-300); only a text message can answer a form. */
  function FromForm(s: State, msg: Message, env: Env): Outcome
    requires Valid(s.sessions)
  {
    var fs := if msg.isText then FormStep(s.sessions, msg.from, MessageText(msg)) else Step(false, s.sessions, []);
    if fs.handled then Outcome(FormContinuation, s.(sessions := fs.sessions), fs.events)
    else FromMenu(s, msg, env)
  }

  /** Stages from the menu words on (server.js:240-300). */
  function FromMenu(s: State, msg: Message, env: Env): Outcome {
    if Lower(MessageText(msg)) in MenuWords then
      Outcome(Menu, s, [Send(msg.from, MainMenu)])
    else
      FromFavorites(s, msg, env)
  }

  /** The favourites stage, the text "1", and the ones after it (server.js:251-300). */
  function FromFavorites(s: State, msg: Message, env: Env): Outcome {
    if Lower(MessageText(msg)) == "1" then
      Outcome(Favorites, s.(sessions := WithAwaitingCard(s.sessions, msg.from, true)), [Send(msg.from, FavoritesList)])
    else
      FromInventory(s, msg, env)
  }

  /** "1" shows the favourites and starts waiting for the card text. */
  lemma FavoritesOnOne(s: State, msg: Message, env: Env)
    requires Lower(MessageText(msg)) == "1"
    ensures FromFavorites(s, msg, env)
              == Outcome(Favorites, s.(sessions := WithAwaitingCard(s.sessions, msg.from, true)), [Send(msg.from, FavoritesList)])
  {
  }

  /** Any other text goes on to the inventory stage. */
  lemma FavoritesPassOn(s: State, msg: Message, env: Env)
    requires Lower(MessageText(msg)) != "1"
    ensures FromFavorites(s, msg, env) == FromInventory(s, msg, env)
  {
  }

  /** Every menu word has at least four characters, so "1" is none of them. */
  lemma OneIsNoMenuWord()
    ensures "1" !in MenuWords
  {
    forall i | 0 <= i < |MenuWords| ensures |MenuWords[i]| >= 4 {
    }
  }

  /** The inventory stage and the ones after it (server.js:262-300). */
  function FromInventory(s: State, msg: Message, env: Env): Outcome {
    var text := MessageText(msg);
    var (s1, found) := if msg.isText && text != "" then InventoryLookup(s, text, env) else (s, None);
    if found.Some? then
      Outcome(InventoryReply, s1, ItemReply(msg.from, found.value))
    else
      FromCloseIntent(s1, msg, env)
  }

  /** Stages from the close-intent phrases on (server.js:289-300). */
  function FromCloseIntent(s: State, msg: Message, env: Env): Outcome {
    var from := msg.from;
    var text := MessageText(msg);
    if HasCloseIntent(Lower(text)) then
      Outcome(CloseIntent, s, [Alert("Intento de cierre", from, "", "", "Cliente quiere comprar"),
                               Send(from, ClosingDetailsRequest)])
    else if msg.isText then
      FromRules(s, from, text, env)
    else
      Outcome(Fallback, s, [Send(from, Help)])
  }

  /** The dynamic-rule stage and the fallback (server.js:296-300); the rules loader's error is not caught. */
  function FromRules(s: State, from: string, text: string, env: Env): Outcome {
    var r := Catalog.Load(s.functions, env.config.functionsUrlSet, env.now, env.config.functionsTtl,
                          env.functionsFeed, Rules.Decode);
    var s1 := s.(functions := r.snapshot);
    if r.result.LoadError? then Outcome(RuleFeedError, s1, [])
    else
      var st := RuleStep(s1.sessions, from, text, r.result.rows);
      if st.handled then Outcome(DynamicRule, s1.(sessions := st.sessions), st.events)
      else Outcome(Fallback, s1, [Send(from, Help)])
  }

  // ===== Properties of the chain =====

  /** Outside business hours the hours notice is all that happens, whatever the message or the session. */
  lemma OutsideHoursOnlyNotice(s: State, msg: Message, env: Env)
    requires Valid(s.sessions)
    requires !IsBusinessHours(env.hour, env.config.businessStart, env.config.businessEnd)
    ensures Dispatch(s, msg, env) == Outcome(OutsideHours, s, [Send(msg.from, HoursNotice)])
  {
  }

  /**
    A text message while a card is awaited: the echoed card is the first `min(500, |text|)`
    characters of the text, the alert carries it, the flag is cleared, and the form (if any)
    is left untouched, so the form stage does not run for this message.
   */
  lemma CardCaptureTruncates(s: State, msg: Message, env: Env)
    requires Valid(s.sessions)
    requires IsBusinessHours(env.hour, env.config.businessStart, env.config.businessEnd)
    requires msg.isText && AwaitingCard(s.sessions, msg.from)
    ensures var o := Dispatch(s, msg, env);
            var text := MessageText(msg);
            && o.stage == CardCapture
            && |o.events| == 3 && o.events[0].Send? && o.events[0].reply.CardEcho?
            && (var card := o.events[0].reply.card;
                && |card| == (if |text| < CardLimit then |text| else CardLimit)
                && StartsWith(text, card)
                && o.events[1] == Alert("Tarjeta personalizada", msg.from, "", "", card)
                && o.events[2] == Send(msg.from, DeliveryDetailsRequest))
            && !AwaitingCard(o.state.sessions, msg.from)
            && FormOf(o.state.sessions, msg.from) == FormOf(s.sessions, msg.from)
            && o.state.inventory == s.inventory && o.state.functions == s.functions
  {
  }

  /** With no card awaited and no form stored, a greeting word brings up the main menu and changes nothing. */
  lemma MenuWordShowsMenu(s: State, msg: Message, env: Env)
    requires Valid(s.sessions)
    requires IsBusinessHours(env.hour, env.config.businessStart, env.config.businessEnd)
    requires !AwaitingCard(s.sessions, msg.from) && FormOf(s.sessions, msg.from) == None
    requires Lower(MessageText(msg)) in MenuWords
    ensures Dispatch(s, msg, env) == Outcome(Menu, s, [Send(msg.from, MainMenu)])
  {
  }

  /** With no card awaited and no form stored, "1" shows the favourites and makes the next text the card. */
  lemma OneShowsFavorites(s: State, msg: Message, env: Env)
    requires Valid(s.sessions)
    requires IsBusinessHours(env.hour, env.config.businessStart, env.config.businessEnd)
    requires !AwaitingCard(s.sessions, msg.from) && FormOf(s.sessions, msg.from) == None
    requires Lower(MessageText(msg)) == "1"
    ensures Dispatch(s, msg, env)
              == Outcome(Favorites, s.(sessions := WithAwaitingCard(s.sessions, msg.from, true)),
                         [Send(msg.from, FavoritesList)])
  {
    OneIsNoMenuWord();
  }

  /**
    With no card awaited, no form stored and no menu word, a text that names an item
    gets the item's replies; the inventory snapshot is whatever the load left.
   */
  lemma FoundItemReplies(s: State, msg: Message, env: Env, item: Inventory.Item)
    requires Valid(s.sessions)
    requires IsBusinessHours(env.hour, env.config.businessStart, env.config.businessEnd)
    requires msg.isText && !AwaitingCard(s.sessions, msg.from) && FormOf(s.sessions, msg.from) == None
    requires var lower := Lower(MessageText(msg)); lower !in MenuWords && lower != "1"
    requires MessageText(msg) != ""
    requires InventoryLookup(s, MessageText(msg), env).1 == Some(item)
    ensures Dispatch(s, msg, env)
              == Outcome(InventoryReply, InventoryLookup(s, MessageText(msg), env).0, ItemReply(msg.from, item))
  {
  }

  /**
    With the inventory snapshot fresh and its first row lacking a code (`,oso de peluche,3,0`),
    every text that reaches the inventory stage, "lo compro" included, gets that row's replies
    and never reaches the close-intent stage.
   */
  lemma BlankCodeRowAnswersEveryText(s: State, msg: Message, env: Env)
    requires Valid(s.sessions)
    requires IsBusinessHours(env.hour, env.config.businessStart, env.config.businessEnd)
    requires msg.isText && !AwaitingCard(s.sessions, msg.from) && FormOf(s.sessions, msg.from) == None
    requires var lower := Lower(MessageText(msg)); lower !in MenuWords && lower != "1"
    requires MessageText(msg) != ""
    requires env.config.inventoryUrlSet && Catalog.Fresh(s.inventory, env.now, env.config.inventoryTtl)
    requires s.inventory.rows[0].code == ""
    ensures Dispatch(s, msg, env) == Outcome(InventoryReply, s, ItemReply(msg.from, s.inventory.rows[0]))
  {
    Inventory.BlankKeyFirstRowFound(s.inventory.rows, MessageText(msg));
    FoundItemReplies(s, msg, env, s.inventory.rows[0]);
  }

  /** A message that is not text (its text is empty) passes every stage and gets the help message, changing nothing. */
  lemma NonTextFallsBack(s: State, msg: Message, env: Env)
    requires Valid(s.sessions)
    requires IsBusinessHours(env.hour, env.config.businessStart, env.config.businessEnd)
    requires !msg.isText
    ensures Dispatch(s, msg, env) == Outcome(Fallback, s, [Send(msg.from, Help)])
  {
    assert MessageText(msg) == "" && Lower("") == "";
    assert "" !in MenuWords;
    forall k | 0 <= k < |CloseIntentPhrases| ensures !Contains("", CloseIntentPhrases[k]) {
      EmptyContainsOnlyEmpty(CloseIntentPhrases[k]);
    }
  }

  /**
    An inventory load that fails is swallowed: the message goes on to the close-intent
    stage and the stages after it, with the inventory snapshot as it was.
   */
  lemma InventoryErrorFallsThrough(s: State, msg: Message, env: Env)
    requires Valid(s.sessions)
    requires IsBusinessHours(env.hour, env.config.businessStart, env.config.businessEnd)
    requires msg.isText && !AwaitingCard(s.sessions, msg.from) && FormOf(s.sessions, msg.from) == None
    requires var lower := Lower(MessageText(msg)); lower !in MenuWords && lower != "1"
    requires MessageText(msg) != ""
    requires env.config.inventoryUrlSet && env.inventoryFeed == Catalog.FetchFailed
    requires !Catalog.Fresh(s.inventory, env.now, env.config.inventoryTtl)
    ensures var o := Dispatch(s, msg, env);
            o == if HasCloseIntent(Lower(MessageText(msg))) then
                   Outcome(CloseIntent, s, [Alert("Intento de cierre", msg.from, "", "", "Cliente quiere comprar"),
                                            Send(msg.from, ClosingDetailsRequest)])
                 else FromRules(s, msg.from, MessageText(msg), env)
  {
  }

  /**
    The rules loader's error is not caught: when the rule sheet has to be fetched and the
    fetch fails, the message gets no reply at all and only the snapshot is kept.
   */
  lemma RuleFeedFailureIsSilent(s: State, from: string, text: string, env: Env)
    requires env.config.functionsUrlSet && env.functionsFeed == Catalog.FetchFailed
    requires !Catalog.Fresh(s.functions, env.now, env.config.functionsTtl)
    ensures FromRules(s, from, text, env) == Outcome(RuleFeedError, s, [])
  {
  }

  /**
    When the rules sheet loads and no rule is actionable for the text, the rule stage
    sends the help message; the sessions are unchanged and only the rules cache moves.
   */
  lemma RulesLoadedNoMatchFallsBack(s: State, from: string, text: string, env: Env)
    requires var r := Catalog.Load(s.functions, env.config.functionsUrlSet, env.now, env.config.functionsTtl,
                                   env.functionsFeed, Rules.Decode);
             && r.result.Rows?
             && forall k :: 0 <= k < |r.result.rows| ==> !Rules.Actionable(r.result.rows[k], Lower(text))
    ensures var r := Catalog.Load(s.functions, env.config.functionsUrlSet, env.now, env.config.functionsTtl,
                                  env.functionsFeed, Rules.Decode);
            FromRules(s, from, text, env) == Outcome(Fallback, s.(functions := r.snapshot), [Send(from, Help)])
  {
  }

  /**
    When the rules sheet loads and rule k is the first actionable one and acts, the rule
    stage answers with that rule's action: its sessions and its sends, and the rules cache as loaded.
   */
  lemma RulesLoadedFirstActs(s: State, from: string, text: string, env: Env, k: nat)
    requires var r := Catalog.Load(s.functions, env.config.functionsUrlSet, env.now, env.config.functionsTtl,
                                   env.functionsFeed, Rules.Decode);
             && r.result.Rows? && k < |r.result.rows|
             && Rules.Actionable(r.result.rows[k], Lower(text))
             && (forall j :: 0 <= j < k ==> !Rules.Actionable(r.result.rows[j], Lower(text)))
             && RuleAction(s.sessions, from, r.result.rows[k]).handled
    ensures var r := Catalog.Load(s.functions, env.config.functionsUrlSet, env.now, env.config.functionsTtl,
                                  env.functionsFeed, Rules.Decode);
            var act := RuleAction(s.sessions, from, r.result.rows[k]);
            FromRules(s, from, text, env)
              == Outcome(DynamicRule, s.(functions := r.snapshot).(sessions := act.sessions), act.events)
  {
    var r := Catalog.Load(s.functions, env.config.functionsUrlSet, env.now, env.config.functionsTtl,
                          env.functionsFeed, Rules.Decode);
    RuleStepActsOnFirst(s.sessions, from, text, r.result.rows, k);
  }

  /**
    In business hours, a text from a sender with a stored form and no card awaited is an
    answer to the form, whatever it says: menu words, "1", item names and rule triggers
    included. The later stages do not run.
   */
  lemma FormStageTakesText(s: State, msg: Message, env: Env)
    requires Valid(s.sessions)
    requires IsBusinessHours(env.hour, env.config.businessStart, env.config.businessEnd)
    requires msg.isText && !AwaitingCard(s.sessions, msg.from) && FormOf(s.sessions, msg.from).Some?
    ensures var st := FormStep(s.sessions, msg.from, MessageText(msg));
            Dispatch(s, msg, env) == Outcome(FormContinuation, s.(sessions := st.sessions), st.events)
  {
  }

  /** The rule step acts exactly as the first actionable rule says, whatever comes after it. */
  lemma RuleStepActsOnFirst(m: Store, from: string, text: string, rules: seq<Rules.Rule>, k: nat)
    requires k < |rules| && Rules.Actionable(rules[k], Lower(text))
    requires forall j :: 0 <= j < k ==> !Rules.Actionable(rules[j], Lower(text))
    ensures RuleStep(m, from, text, rules) == RuleAction(m, from, rules[k])
  {
    var r := Rules.FirstActionable(rules, Lower(text));
    assert r.Some?;
    assert !(r.value < k) && !(k < r.value);
  }

  /** A rule that is disabled, does not match, or has an unknown type is passed over: the scan goes on with the rest. */
  lemma SkippedRuleIgnored(m: Store, from: string, text: string, r: Rules.Rule, more: seq<Rules.Rule>)
    requires !Rules.Actionable(r, Lower(text))
    ensures RuleStep(m, from, text, [r] + more) == RuleStep(m, from, text, more)
  {
    var rules := [r] + more;
    assert rules[1..] == more;
    match Rules.FirstActionable(more, Lower(text))
    case None =>
    case Some(k) => assert rules[k + 1] == more[k];
  }

  /** Once a rule is actionable, rules after it have no say: if two rules match, only the earlier acts. */
  lemma EarlierRuleWins(m: Store, from: string, text: string, rules: seq<Rules.Rule>, more: seq<Rules.Rule>, k: nat)
    requires k < |rules| && Rules.Actionable(rules[k], Lower(text))
    ensures RuleStep(m, from, text, rules + more) == RuleStep(m, from, text, rules)
  {
    Rules.FirstActionableAppend(rules, more, Lower(text));
    var j := Rules.FirstActionable(rules, Lower(text)).value;
    assert (rules + more)[j] == rules[j];
  }

  /** A FORM rule with no usable field that is acted on ends the search: the step fails without trying later rules. */
  lemma EmptyFormRuleEndsSearch(m: Store, from: string, text: string, form: Rules.Rule, more: seq<Rules.Rule>)
    requires Rules.Actionable(form, Lower(text)) && form.kind == "FORM"
    requires Rules.FormFields(form.payload1) == []
    ensures RuleStep(m, from, text, [form] + more) == Step(false, m, [])
  {
    var rules := [form] + more;
    assert rules[0] == form;
    var r := Rules.FirstActionable(rules, Lower(text));
    assert r.Some?;
    assert r.value == 0;
    assert form.kind != "TEXT" && form.kind != "ALERT" by {
      assert form.kind[0] == 'F';
    }
    assert RuleStep(m, from, text, rules) == RuleAction(m, from, form);
  }

  /**
    A stored form takes the message as the answer to its current field: either the form is
    kept with the position moved on and the next field is asked for, or it was the last field
    and the thanks message and a summary alert go out and the form is cleared. The card flag
    and every other sender's record stay as they were.
   */
  lemma FormStepAdvances(m: Store, from: string, text: string)
    requires Valid(m) && FormOf(m, from).Some?
    ensures var f := FormOf(m, from).value;
            var g := Forms.Answer(f, text);
            var st := FormStep(m, from, text);
            && st.handled && Valid(st.sessions)
            && AwaitingCard(st.sessions, from) == AwaitingCard(m, from)
            && (forall k :: k in m && k != from ==> st.sessions[k] == m[k])
            && Forms.Get(g.data, f.fields[f.i]) == Some(text)
            && (f.i + 1 < |f.fields| ==>
                  && FormOf(st.sessions, from) == Some(g) && g.i == f.i + 1
                  && st.events == [Send(from, FormNextField(f.fields[f.i + 1]))])
            && (f.i + 1 == |f.fields| ==>
                  && FormOf(st.sessions, from) == None
                  && st.events == [Send(from, FormThanks(f.thanks)),
                                   Alert("Formulario: " + f.title, from, "", "", Forms.Summary(g.data))])
  {
    var f := FormOf(m, from).value;
    assert Forms.Pending(f) by {
      assert from in m && m[from].form == Some(f);
    }
    Forms.PutGet(f.data, f.fields[f.i], text);
    SettersKeepValid(m, from, false, Forms.Answer(f, text));
  }

  /** A rule's action keeps every stored form pending: a FORM rule installs a form with a field to ask. */
  lemma RuleActionKeepsValid(m: Store, from: string, r: Rules.Rule)
    requires Valid(m)
    ensures Valid(RuleAction(m, from, r).sessions)
  {
    var fields := Rules.FormFields(r.payload1);
    if r.kind != "TEXT" && r.kind != "ALERT" && fields != [] {
      SettersKeepValid(m, from, false, Forms.Start(r.trigger, fields, r.payload2));
    }
  }

  /** The rule stage keeps every stored form pending. */
  lemma FromRulesKeepsValid(s: State, from: string, text: string, env: Env)
    requires Valid(s.sessions)
    ensures Valid(FromRules(s, from, text, env).state.sessions)
  {
    var r := Catalog.Load(s.functions, env.config.functionsUrlSet, env.now, env.config.functionsTtl,
                          env.functionsFeed, Rules.Decode);
    if r.result.Rows? {
      var k := Rules.FirstActionable(r.result.rows, Lower(text));
      if k.Some? {
        RuleActionKeepsValid(s.sessions, from, r.result.rows[k.value]);
      }
    }
  }

  /** The stages from the menu words on keep every stored form pending. */
  lemma FromMenuKeepsValid(s: State, msg: Message, env: Env)
    requires Valid(s.sessions)
    ensures Valid(FromMenu(s, msg, env).state.sessions)
  {
    var text := MessageText(msg);
    var lower := Lower(text);
    var o := FromMenu(s, msg, env);
    if lower in MenuWords {
      assert o.state == s;
    } else if lower == "1" {
      SettersKeepValid(s.sessions, msg.from, true, Forms.Form("", [], 0, [], ""));
      assert o.state.sessions == WithAwaitingCard(s.sessions, msg.from, true);
    } else {
      var s1 := if msg.isText && text != "" then InventoryLookup(s, text, env).0 else s;
      assert s1.sessions == s.sessions;
      FromRulesKeepsValid(s1, msg.from, text, env);
      assert o.state.sessions == s1.sessions || o.state == FromRules(s1, msg.from, text, env).state;
    }
  }

  /** Every stage keeps every stored form pending. */
  lemma DispatchKeepsValid(s: State, msg: Message, env: Env)
    requires Valid(s.sessions)
    ensures Valid(Dispatch(s, msg, env).state.sessions)
  {
    SettersKeepValid(s.sessions, msg.from, false, Forms.Form("", [], 0, [], ""));
    if msg.isText && FormOf(s.sessions, msg.from).Some? {
      FormStepAdvances(s.sessions, msg.from, MessageText(msg));
    }
    FromMenuKeepsValid(s, msg, env);
  }
}
