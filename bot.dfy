/**
  The running bot (server.js:60-192 and the `POST /webhook` handler, server.js:205-300):
  the module-level session map and the two cache snapshots become fields of one
  object, and every text sent and alert raised is appended to `outbox`, in order.
  Each method is proved to leave the object exactly as the pure model of the same
  operation says.
 */
module Bot {
  import opened Options
  import opened Text
  import opened Events
  import opened Sessions
  import Forms
  import Inventory
  import Rules
  import Csv
  import Catalog
  import Dispatcher

  /** What `tryHandleDynamicFeature` comes to: `true`, `false`, or the rules loader's error propagating. */
  datatype Verdict = Handled | NotHandled | FeedError

  class Bot {
    var sessions: Store
    var invCache: Catalog.Snapshot<Inventory.Item>
    var funcCache: Catalog.Snapshot<Rules.Rule>
    var outbox: seq<Event>

    /** Every stored form still has a field to ask for. */
    ghost predicate Valid()
      reads this
    {
      Sessions.Valid(sessions)
    }

    /** The state when the process starts: no sessions, both caches `{at: 0, rows: []}`. */
    constructor ()
      ensures Valid() && sessions == map[] && outbox == []
      ensures invCache == Catalog.Snapshot(0, []) && funcCache == Catalog.Snapshot(0, [])
    {
      sessions := map[];
      invCache := Catalog.Snapshot(0, []);
      funcCache := Catalog.Snapshot(0, []);
      outbox := [];
    }

    /** `setAwaitingCard(from, value)`. */
    method SetAwaitingCard(from: string, value: bool)
      modifies this`sessions
      ensures sessions == WithAwaitingCard(old(sessions), from, value)
    {
      var s := Lookup(sessions, from);
      sessions := sessions[from := s.(awaitingCard := value)];
    }

    /** `setForm(from, f)`. */
    method SetForm(from: string, f: Forms.Form)
      modifies this`sessions
      ensures sessions == WithForm(old(sessions), from, f)
    {
      var s := Lookup(sessions, from);
      sessions := sessions[from := s.(form := Some(f))];
    }

    /** `clearForm(from)`. */
    method ClearForm(from: string)
      modifies this`sessions
      ensures sessions == WithoutForm(old(sessions), from)
    {
      var s := Lookup(sessions, from);
      sessions := sessions[from := s.(form := None)];
    }

    /** `loadInventoryCSV()`: returns the rows (or the fetch error) and whether it fetched. */
    method LoadInventoryCSV(configured: bool, now: int, ttl: int, fetch: Catalog.Fetch)
      returns (result: Catalog.Loaded<Inventory.Item>, fetched: bool)
      modifies this`invCache
      ensures Catalog.Refresh(result, invCache, fetched)
                == Catalog.Load(old(invCache), configured, now, ttl, fetch, Inventory.Decode)
    {
      if !configured {
        return Catalog.Rows([]), false;
      }
      if ttl > 0 && now - invCache.at < ttl && |invCache.rows| > 0 {
        return Catalog.Rows(invCache.rows), false;
      }
      if fetch.FetchFailed? {
        return Catalog.LoadError, true;
      }
      var table := Csv.ParseTable(fetch.body);
      if table.None? {
        return Catalog.Rows([]), true;
      }
      var data := Inventory.Decode(table.value);
      invCache := Catalog.Snapshot(now, data);
      return Catalog.Rows(data), true;
    }

    /** `loadFunctionsCSV()`: returns the rules (or the fetch error) and whether it fetched. */
    method LoadFunctionsCSV(configured: bool, now: int, ttl: int, fetch: Catalog.Fetch)
      returns (result: Catalog.Loaded<Rules.Rule>, fetched: bool)
      modifies this`funcCache
      ensures Catalog.Refresh(result, funcCache, fetched)
                == Catalog.Load(old(funcCache), configured, now, ttl, fetch, Rules.Decode)
    {
      if !configured {
        return Catalog.Rows([]), false;
      }
      if ttl > 0 && now - funcCache.at < ttl && |funcCache.rows| > 0 {
        return Catalog.Rows(funcCache.rows), false;
      }
      if fetch.FetchFailed? {
        return Catalog.LoadError, true;
      }
      var table := Csv.ParseTable(fetch.body);
      if table.None? {
        return Catalog.Rows([]), true;
      }
      var data := Rules.Decode(table.value);
      funcCache := Catalog.Snapshot(now, data);
      return Catalog.Rows(data), true;
    }

    /**
      `handleFormIfAny(from, text)`: records the answer in the stored form, then asks for
      the next field or finishes the form; the sessions and the sends are those of
      `Dispatcher.FormStep`, and every stored form is still pending afterwards.
     */
    method HandleFormIfAny(from: string, text: string) returns (handled: bool)
      requires Valid()
      modifies this`sessions, this`outbox
      ensures var st := Dispatcher.FormStep(old(sessions), from, text);
              handled == st.handled && sessions == st.sessions && outbox == old(outbox) + st.events
      ensures Valid()
    {
      var stored := FormOf(sessions, from);
      if stored.None? {
        return false;
      }
      ghost var m := sessions;
      Dispatcher.FormStepAdvances(m, from, text);
      var f := stored.value;
      assert Forms.Pending(f) by {
        assert from in sessions && sessions[from].form == Some(f);
      }
      var currentField := f.fields[f.i];
      f := f.(data := Forms.Put(f.data, currentField, text));
      f := f.(i := f.i + 1);
      if f.i < |f.fields| {
        var nextField := f.fields[f.i];
        SetForm(from, f);
        outbox := outbox + [Send(from, FormNextField(nextField))];
      } else {
        outbox := outbox + [Send(from, FormThanks(f.thanks))];
        var summary := Forms.Summary(f.data);
        outbox := outbox + [Alert("Formulario: " + f.title, from, "", "", summary)];
        ClearForm(from);
      }
      return true;
    }

    /**
      `tryHandleDynamicFeature(from, text)`: loads the rules, then walks them in sheet
      order and acts on the first enabled rule of a known type whose trigger matches;
      the verdict, sessions and sends are those of `Dispatcher.RuleStep` on the loaded rules.
     */
    method TryHandleDynamicFeature(from: string, text: string,
                                   configured: bool, now: int, ttl: int, fetch: Catalog.Fetch)
      returns (verdict: Verdict)
      requires Valid()
      modifies this`sessions, this`outbox, this`funcCache
      ensures var r := Catalog.Load(old(funcCache), configured, now, ttl, fetch, Rules.Decode);
              && funcCache == r.snapshot
              && (r.result.LoadError? ==>
                    verdict == FeedError && sessions == old(sessions) && outbox == old(outbox))
              && (r.result.Rows? ==>
                    var st := Dispatcher.RuleStep(old(sessions), from, text, r.result.rows);
                    && verdict == (if st.handled then Handled else NotHandled)
                    && sessions == st.sessions && outbox == old(outbox) + st.events)
      ensures Valid()
    {
      var loaded, _ := LoadFunctionsCSV(configured, now, ttl, fetch);
      if loaded.LoadError? {
        return FeedError;
      }
      var handled := ScanRules(from, text, loaded.rows);
      verdict := if handled then Handled else NotHandled;
    }

    /**
      The loop of `tryHandleDynamicFeature` over the loaded rules: skips every rule that is
      disabled, does not match or has an unknown type, and acts on the first one that is none of these.
     */
    method ScanRules(from: string, text: string, funcs: seq<Rules.Rule>) returns (handled: bool)
      requires Valid()
      modifies this`sessions, this`outbox
      ensures var st := Dispatcher.RuleStep(old(sessions), from, text, funcs);
              handled == st.handled && sessions == st.sessions && outbox == old(outbox) + st.events
      ensures Valid()
    {
      var lower := Lower(text);
      var k := 0;
      while k < |funcs|
        invariant 0 <= k <= |funcs|
        invariant forall j :: 0 <= j < k ==> !Rules.Actionable(funcs[j], lower)
        invariant sessions == old(sessions) && outbox == old(outbox)
      {
        var f := funcs[k];
        var matched := if StartsWith(f.trigger, "=") then lower == Lower(f.trigger[1..])
                       else Contains(lower, Lower(f.trigger));
        if f.enabled && matched && Rules.KnownKind(f.kind) {
          Dispatcher.RuleStepActsOnFirst(sessions, from, text, funcs, k);
          handled := ApplyRule(from, f);
          return;
        }
        k := k + 1;
      }
      assert Rules.FirstActionable(funcs, lower).None?;
      return false;
    }

    /** The action of the rule the loop stopped at: a TEXT reply, an ALERT, or a FORM started. */
    method ApplyRule(from: string, f: Rules.Rule) returns (handled: bool)
      requires Valid()
      modifies this`sessions, this`outbox
      ensures var st := Dispatcher.RuleAction(old(sessions), from, f);
              handled == st.handled && sessions == st.sessions && outbox == old(outbox) + st.events
      ensures Valid()
    {
      Dispatcher.RuleActionKeepsValid(sessions, from, f);
      if f.kind == "TEXT" {
        outbox := outbox + [Send(from, RuleText(f.payload1))];
        if f.payload2 != "" {
          outbox := outbox + [Alert("Función TEXT", from, "", "", f.payload2)];
        }
        return true;
      }
      if f.kind == "ALERT" {
        var kind := if f.payload1 == "" then "Alerta" else f.payload1;
        outbox := outbox + [Alert(kind, from, "", "", f.payload2), Send(from, AlertAcknowledged)];
        return true;
      }
      var fields := Rules.FormFields(f.payload1);
      if fields == [] {
        return false;
      }
      SetForm(from, Forms.Start(f.trigger, fields, f.payload2));
      outbox := outbox + [Send(from, FormFieldList(fields)), Send(from, FormFirstField(fields[0]))];
      return true;
    }

    /**
      The `POST /webhook` handler for one message: runs the stage chain and returns the
      stage that acted. The sessions, both caches and the sends are exactly those of
      `Dispatcher.Dispatch` on the state before the message.
     */
    method HandleMessage(msg: Dispatcher.Message, env: Dispatcher.Env) returns (stage: Dispatcher.Stage)
      requires Valid()
      modifies this
      ensures var o := Dispatcher.Dispatch(old(Dispatcher.State(sessions, invCache, funcCache)), msg, env);
              && stage == o.stage
              && Dispatcher.State(sessions, invCache, funcCache) == o.state
              && outbox == old(outbox) + o.events
      ensures Valid()
    {
      if !Dispatcher.IsBusinessHours(env.hour, env.config.businessStart, env.config.businessEnd) {
        outbox := outbox + [Send(msg.from, HoursNotice)];
        return Dispatcher.OutsideHours;
      }
      stage := HandleCardOnward(msg, env);
    }

    /** The handler's stages from the card capture on, as `Dispatcher.FromCard` says. */
    method HandleCardOnward(msg: Dispatcher.Message, env: Dispatcher.Env) returns (stage: Dispatcher.Stage)
      requires Valid()
      modifies this
      ensures var o := Dispatcher.FromCard(old(Dispatcher.State(sessions, invCache, funcCache)), msg, env);
              && stage == o.stage
              && Dispatcher.State(sessions, invCache, funcCache) == o.state
              && outbox == old(outbox) + o.events
      ensures Valid()
    {
      ghost var s0 := Dispatcher.State(sessions, invCache, funcCache);
      var from := msg.from;
      if msg.isText && AwaitingCard(sessions, from) {
        CaptureCard(from, Dispatcher.MessageText(msg));
        SettersKeepValid(s0.sessions, from, false, Forms.Form("", [], 0, [], ""));
        return Dispatcher.CardCapture;
      }
      stage := HandleFormOnward(msg, env);
    }

    /** The handler's stages from the form continuation on, as `Dispatcher.FromForm` says. */
    method HandleFormOnward(msg: Dispatcher.Message, env: Dispatcher.Env) returns (stage: Dispatcher.Stage)
      requires Valid()
      modifies this
      ensures var o := Dispatcher.FromForm(old(Dispatcher.State(sessions, invCache, funcCache)), msg, env);
              && stage == o.stage
              && Dispatcher.State(sessions, invCache, funcCache) == o.state
              && outbox == old(outbox) + o.events
      ensures Valid()
    {
      if msg.isText {
        var done := HandleFormIfAny(msg.from, Dispatcher.MessageText(msg));
        if done {
          return Dispatcher.FormContinuation;
        }
        assert outbox == old(outbox) && sessions == old(sessions);
      }
      stage := HandleMenuOnward(msg, env);
    }

    /** A text while a card is awaited: the first 500 characters are the card, echoed and forwarded, and the wait ends. */
    method CaptureCard(from: string, text: string)
      modifies this`sessions, this`outbox
      ensures var card := Take(text, Dispatcher.CardLimit);
              && sessions == WithAwaitingCard(old(sessions), from, false)
              && outbox == old(outbox) + [Send(from, CardEcho(card)),
                                          Alert("Tarjeta personalizada", from, "", "", card),
                                          Send(from, DeliveryDetailsRequest)]
    {
      var customText := text;
      if |customText| > Dispatcher.CardLimit {
        customText := customText[..Dispatcher.CardLimit];
      }
      outbox := outbox + [Send(from, CardEcho(customText))];
      outbox := outbox + [Alert("Tarjeta personalizada", from, "", "", customText)];
      SetAwaitingCard(from, false);
      outbox := outbox + [Send(from, DeliveryDetailsRequest)];
    }

    /**
      The handler's stages from the menu words on: menu, favourites, inventory, close
      intent, dynamic rules and the help message, as `Dispatcher.FromMenu` says.
     */
    method HandleMenuOnward(msg: Dispatcher.Message, env: Dispatcher.Env) returns (stage: Dispatcher.Stage)
      requires Valid()
      modifies this
      ensures var o := Dispatcher.FromMenu(old(Dispatcher.State(sessions, invCache, funcCache)), msg, env);
              && stage == o.stage
              && Dispatcher.State(sessions, invCache, funcCache) == o.state
              && outbox == old(outbox) + o.events
      ensures Valid()
    {
      if Lower(Dispatcher.MessageText(msg)) in Dispatcher.MenuWords {
        outbox := outbox + [Send(msg.from, MainMenu)];
        return Dispatcher.Menu;
      }
      stage := HandleFavoritesOnward(msg, env);
    }

    /** The handler's stages from the text "1" on, as `Dispatcher.FromFavorites` says. */
    method HandleFavoritesOnward(msg: Dispatcher.Message, env: Dispatcher.Env) returns (stage: Dispatcher.Stage)
      requires Valid()
      modifies this
      ensures var o := Dispatcher.FromFavorites(old(Dispatcher.State(sessions, invCache, funcCache)), msg, env);
              && stage == o.stage
              && Dispatcher.State(sessions, invCache, funcCache) == o.state
              && outbox == old(outbox) + o.events
      ensures Valid()
    {
      ghost var s0 := Dispatcher.State(sessions, invCache, funcCache);
      if Lower(Dispatcher.MessageText(msg)) == "1" {
        Dispatcher.FavoritesOnOne(s0, msg, env);
        outbox := outbox + [Send(msg.from, FavoritesList)];
        SetAwaitingCard(msg.from, true);
        SettersKeepValid(s0.sessions, msg.from, true, Forms.Form("", [], 0, [], ""));
        return Dispatcher.Favorites;
      }
      Dispatcher.FavoritesPassOn(s0, msg, env);
      stage := HandleInventoryOnward(msg, env);
    }

    /** The handler's stages from the inventory lookup on, as `Dispatcher.FromInventory` says. */
    method HandleInventoryOnward(msg: Dispatcher.Message, env: Dispatcher.Env) returns (stage: Dispatcher.Stage)
      requires Valid()
      modifies this
      ensures var o := Dispatcher.FromInventory(old(Dispatcher.State(sessions, invCache, funcCache)), msg, env);
              && stage == o.stage
              && Dispatcher.State(sessions, invCache, funcCache) == o.state
              && outbox == old(outbox) + o.events
      ensures Valid()
    {
      ghost var s0 := Dispatcher.State(sessions, invCache, funcCache);
      var text := Dispatcher.MessageText(msg);
      if msg.isText && text != "" {
        var item := FindInInventory(text, env);
        ghost var s1 := Dispatcher.State(sessions, invCache, funcCache);
        if item.Some? {
          assert Dispatcher.FromInventory(s0, msg, env)
                   == Dispatcher.Outcome(Dispatcher.InventoryReply, s1, Dispatcher.ItemReply(msg.from, item.value));
          ReplyItem(msg.from, item.value);
          return Dispatcher.InventoryReply;
        }
        assert Dispatcher.FromInventory(s0, msg, env) == Dispatcher.FromCloseIntent(s1, msg, env);
      }
      stage := HandleCloseIntentOnward(msg, env);
    }

    /**
      The inventory stage's lookup: loads the sheet and matches the text; a load error is
      caught and reads as no item. The cache and the item are those of `Dispatcher.InventoryLookup`.
     */
    method FindInInventory(text: string, env: Dispatcher.Env) returns (item: Option<Inventory.Item>)
      modifies this`invCache
      ensures var (s1, found) := Dispatcher.InventoryLookup(old(Dispatcher.State(sessions, invCache, funcCache)), text, env);
              invCache == s1.inventory && item == found
    {
      var inv, _ := LoadInventoryCSV(env.config.inventoryUrlSet, env.now, env.config.inventoryTtl, env.inventoryFeed);
      if inv.LoadError? {
        return None;
      }
      item := Inventory.FindItemByTextAsWritten(inv.rows, text);
    }

    /** The replies for a found item: out of stock with an alert, or available with the price when positive. */
    method ReplyItem(from: string, it: Inventory.Item)
      modifies this`outbox
      ensures outbox == old(outbox) + Dispatcher.ItemReply(from, it)
    {
      if !Inventory.InStock(it) {
        outbox := outbox + [Send(from, OutOfStock(it.name))];
        outbox := outbox + [Alert("Sin stock", from, it.name, it.code, "Inventario sin stock")];
      } else {
        outbox := outbox + [Send(from, Available(it.name))];
        if it.price.Int? && it.price.value > 0 {
          outbox := outbox + [Send(from, PriceQuote(it.price.value))];
        }
        outbox := outbox + [Send(from, DeliveryDetailsRequest)];
      }
    }

    /** The handler's stages from the close-intent phrases on, as `Dispatcher.FromCloseIntent` says. */
    method HandleCloseIntentOnward(msg: Dispatcher.Message, env: Dispatcher.Env) returns (stage: Dispatcher.Stage)
      requires Valid()
      modifies this
      ensures var o := Dispatcher.FromCloseIntent(old(Dispatcher.State(sessions, invCache, funcCache)), msg, env);
              && stage == o.stage
              && Dispatcher.State(sessions, invCache, funcCache) == o.state
              && outbox == old(outbox) + o.events
      ensures Valid()
    {
      ghost var s0 := Dispatcher.State(sessions, invCache, funcCache);
      var from := msg.from;
      var text := Dispatcher.MessageText(msg);
      if Dispatcher.HasCloseIntent(Lower(text)) {
        outbox := outbox + [Alert("Intento de cierre", from, "", "", "Cliente quiere comprar"),
                            Send(from, ClosingDetailsRequest)];
        return Dispatcher.CloseIntent;
      }
      if msg.isText {
        assert Dispatcher.FromCloseIntent(s0, msg, env) == Dispatcher.FromRules(s0, from, text, env);
        stage := HandleRulesOnward(from, text, env);
        return;
      }
      assert Dispatcher.FromCloseIntent(s0, msg, env) == Dispatcher.Outcome(Dispatcher.Fallback, s0, [Send(from, Help)]);
      outbox := outbox + [Send(from, Help)];
      return Dispatcher.Fallback;
    }

    /** The dynamic rules and the help message, as `Dispatcher.FromRules` says; the rules loader's error ends the handler silently. */
    method HandleRulesOnward(from: string, text: string, env: Dispatcher.Env) returns (stage: Dispatcher.Stage)
      requires Valid()
      modifies this
      ensures var o := Dispatcher.FromRules(old(Dispatcher.State(sessions, invCache, funcCache)), from, text, env);
              && stage == o.stage
              && Dispatcher.State(sessions, invCache, funcCache) == o.state
              && outbox == old(outbox) + o.events
      ensures Valid()
    {
      var verdict := TryHandleDynamicFeature(from, text, env.config.functionsUrlSet, env.now,
                                             env.config.functionsTtl, env.functionsFeed);
      if verdict == FeedError {
        return Dispatcher.RuleFeedError;
      }
      if verdict == Handled {
        return Dispatcher.DynamicRule;
      }
      assert outbox == old(outbox) && sessions == old(sessions);
      outbox := outbox + [Send(from, Help)];
      return Dispatcher.Fallback;
    }
  }
}
