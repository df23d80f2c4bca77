/**
  Conversations the bot is built for, followed message by message through the
  stage chain: the greeting, the favourites menu and a custom card, and a
  question about an item the inventory sheet lists with no stock.
 */
module Scenarios {
  import opened Options
  import opened Text
  import opened Events
  import opened Sessions
  import opened Dispatcher
  import Csv
  import Inventory
  import Catalog

  /** A minimal inventory sheet: the header and one item, a giant bear with no stock. */
  const SampleHeader: seq<string> := ["code", "name", "stock", "price"]
  const SampleCells: seq<string> := ["OSO1", "Oso gigante", "0", "0"]

  function SampleSheet(): string {
    Join(SampleHeader, ',') + "\n" + Join(SampleCells, ',')
  }

  function Bear(): Inventory.Item {
    Inventory.Item("OSO1", "Oso gigante", Inventory.Int(0), Inventory.Int(0))
  }

  /** A cell of lower-case ASCII letters only is its own header key. */
  lemma PlainHeaderKey(h: string)
    requires PlainName(h)
    ensures Csv.HeaderKey(h) == h
  {
    assert !IsSpace(h[0]) && !IsSpace(h[|h| - 1]) by {
      assert 'a' <= h[0] <= 'z' && 'a' <= h[|h| - 1] <= 'z';
    }
    assert Trim(h) == h;
    forall i | 0 <= i < |h| ensures !IsUpper(h[i]) {
      assert 'a' <= h[i] <= 'z';
    }
    LowerKeeps(h);
  }

  /** A cell of lower-case ASCII letters only. */
  predicate PlainName(h: string) {
    h != "" && forall j :: 0 <= j < |h| ==> 'a' <= h[j] <= 'z'
  }

  /** A header of plain names is its own list of keys. */
  lemma PlainHeaderKeys(cells: seq<string>)
    requires forall i :: 0 <= i < |cells| ==> PlainName(cells[i])
    ensures Csv.HeaderKeys(cells) == cells
  {
    forall i | 0 <= i < |cells| ensures Csv.HeaderKeys(cells)[i] == cells[i] {
      PlainHeaderKey(cells[i]);
    }
  }

  /** In a header of distinct plain names, each name maps to its own column. */
  lemma PlainColumn(cells: seq<string>, i: nat)
    requires forall k :: 0 <= k < |cells| ==> PlainName(cells[k])
    requires forall k, j :: 0 <= k < j < |cells| ==> cells[k] != cells[j]
    requires i < |cells|
    ensures cells[i] in Csv.HeaderIndex(cells) && Csv.HeaderIndex(cells)[cells[i]] == i
  {
    PlainHeaderKeys(cells);
    Csv.LastPositionsDistinct(cells);
  }

  /** The sample header's names are plain and distinct. */
  lemma SampleHeaderPlain()
    ensures forall k :: 0 <= k < |SampleHeader| ==> PlainName(SampleHeader[k])
    ensures forall k, j :: 0 <= k < j < |SampleHeader| ==> SampleHeader[k] != SampleHeader[j]
  {
    assert PlainName(SampleHeader[0]) && PlainName(SampleHeader[1]);
    assert PlainName(SampleHeader[2]) && PlainName(SampleHeader[3]);
  }

  /** The sample header maps each column name to its own position. */
  lemma SampleIndex()
    ensures var idx := Csv.HeaderIndex(SampleHeader);
            && "code" in idx && idx["code"] == 0 && "name" in idx && idx["name"] == 1
            && "stock" in idx && idx["stock"] == 2 && "price" in idx && idx["price"] == 3
  {
    SampleHeaderPlain();
    PlainColumn(SampleHeader, 0);
    PlainColumn(SampleHeader, 1);
    PlainColumn(SampleHeader, 2);
    PlainColumn(SampleHeader, 3);
  }

  /** The sample sheet is the header line and the one data line. */
  lemma SampleSheetLines()
    ensures Csv.ParseTable(SampleSheet()) == Some(Csv.Table(Csv.HeaderIndex(SampleHeader), [Join(SampleCells, ',')]))
  {
    var h := Join(SampleHeader, ',');
    var r := Join(SampleCells, ',');
    JoinAvoids(SampleHeader, ',', '\n');
    JoinAvoids(SampleHeader, ',', '\r');
    JoinAvoids(SampleCells, ',', '\n');
    assert h == SampleHeader[0] + [','] + Join(SampleHeader[1..], ',');
    assert r == SampleCells[0] + [','] + Join(SampleCells[1..], ',');
    Csv.ParseTwoLines(h, r);
    SampleHeaderSplits();
  }

  /** The header line splits back into its four names. */
  lemma SampleHeaderSplits()
    ensures Split(Join(SampleHeader, ','), ',') == SampleHeader
  {
    assert ',' !in SampleHeader[0] && ',' !in SampleHeader[1] && ',' !in SampleHeader[2] && ',' !in SampleHeader[3];
    SplitJoin(SampleHeader, ',');
  }

  /** The data line splits back into its four cells. */
  lemma SampleRowSplits()
    ensures Split(Join(SampleCells, ','), ',') == SampleCells
  {
    assert ',' !in SampleCells[0] && ',' !in SampleCells[1] && ',' !in SampleCells[2] && ',' !in SampleCells[3];
    SplitJoin(SampleCells, ',');
  }

  /** A stock or price cell "0" reads as the number 0. */
  lemma ZeroParses()
    ensures Inventory.ParseNumber("0") == Inventory.Int(0)
  {
    assert Inventory.AllDigits("0");
    assert "0"[..0] == "";
  }

  /** A cell that starts and ends with an ASCII letter or digit is its own trim. */
  lemma PlainTrim(v: string)
    requires v != ""
    requires var c := v[0]; 'a' <= c <= 'z' || 'A' <= c <= 'Z' || '0' <= c <= '9'
    requires var c := v[|v| - 1]; 'a' <= c <= 'z' || 'A' <= c <= 'Z' || '0' <= c <= '9'
    ensures Trim(v) == v
  {
    assert !IsSpace(v[0]) && !IsSpace(v[|v| - 1]);
  }

  /** The data line's cells carry no surrounding white space. */
  lemma CodeTrimmed() ensures Trim("OSO1") == "OSO1" { PlainTrim("OSO1"); }
  lemma NameTrimmed() ensures Trim("Oso gigante") == "Oso gigante" { PlainTrim("Oso gigante"); }
  lemma ZeroTrimmed() ensures Trim("0") == "0" { PlainTrim("0"); }

  /** A column the map knows, holding an already trimmed cell, reads as that cell. */
  lemma CellAt(idx: map<string, nat>, cols: seq<string>, key: string, j: nat, v: string)
    requires key in idx && idx[key] == j && j < |cols| && cols[j] == v && Trim(v) == v
    ensures Csv.Cell(idx, cols, key) == v
  {
  }

  /** The data line's cells decode to the bear. */
  lemma SampleRowDecodes()
    ensures Inventory.DecodeItem(Csv.HeaderIndex(SampleHeader), SampleCells) == Bear()
  {
    var idx := Csv.HeaderIndex(SampleHeader);
    SampleIndex();
    CodeTrimmed();
    NameTrimmed();
    ZeroTrimmed();
    CellAt(idx, SampleCells, "code", 0, "OSO1");
    CellAt(idx, SampleCells, "name", 1, "Oso gigante");
    CellAt(idx, SampleCells, "stock", 2, "0");
    CellAt(idx, SampleCells, "price", 3, "0");
    ZeroParses();
  }

  /** The sample sheet parses to the bear alone. */
  lemma SampleSheetDecodes()
    ensures Csv.ParseTable(SampleSheet()).Some?
    ensures Inventory.Decode(Csv.ParseTable(SampleSheet()).value) == [Bear()]
  {
    SampleSheetLines();
    SampleRowSplits();
    SampleRowDecodes();
    Csv.DecodeRowsOne(Csv.HeaderIndex(SampleHeader), Join(SampleCells, ','), Inventory.DecodeItem, Inventory.HasKey);
  }

  /** "quiero el OSO1", lower-cased, mentions the bear's code. */
  lemma AskForBearMatches()
    ensures Lower("quiero el OSO1") == "quiero el oso1"
    ensures Inventory.FindItemByText([Bear()], "quiero el OSO1") == Some(Bear())
    ensures Inventory.FindItemByTextAsWritten([Bear()], "quiero el OSO1") == Some(Bear())
  {
    Inventory.AsWrittenAgreesWhenKeyed([Bear()], "quiero el OSO1");
    var t := Lower("quiero el OSO1");
    assert t == "quiero el oso1";
    assert Lower("OSO1") == "oso1";
    assert StartsWith(t[10..], "oso1");
    assert Inventory.Matches(Bear(), t);
  }

  /** "hola" arrives as itself. */
  lemma HolaText(c: string)
    ensures MessageText(Message(c, true, "hola")) == "hola"
  {
    HolaTrimmed();
  }

  /** "hola", lower-cased, is the first menu word. */
  lemma HolaIsMenuWord()
    ensures Lower("hola") in MenuWords
  {
    HolaLowered();
    assert MenuWords[0] == "hola";
  }

  lemma HolaTrimmed() ensures Trim("hola") == "hola" { PlainTrim("hola"); }
  lemma HolaLowered() ensures Lower("hola") == "hola" { LowerKeeps("hola"); }

  lemma OneTrimmed() ensures Trim("1") == "1" { PlainTrim("1"); }
  lemma OneLowered() ensures Lower("1") == "1" { LowerKeeps("1"); }

  /** "1" arrives as itself. */
  lemma OneText(c: string)
    ensures Lower(MessageText(Message(c, true, "1"))) == "1"
  {
    OneTrimmed();
    OneLowered();
  }

  lemma CardTrimmed() ensures Trim("Feliz cumple Ana") == "Feliz cumple Ana" { PlainTrim("Feliz cumple Ana"); }

  /** A short card text arrives as itself and is kept whole. */
  lemma CardText(c: string)
    ensures MessageText(Message(c, true, "Feliz cumple Ana")) == "Feliz cumple Ana"
    ensures Take("Feliz cumple Ana", CardLimit) == "Feliz cumple Ana"
  {
    CardTrimmed();
  }

  /** While a card is awaited, "Feliz cumple Ana" is the card: echoed, forwarded, and the wait ends. */
  lemma CardTaken(s: State, c: string, env: Env)
    requires Valid(s.sessions)
    requires IsBusinessHours(env.hour, env.config.businessStart, env.config.businessEnd)
    requires AwaitingCard(s.sessions, c)
    ensures var card := "Feliz cumple Ana";
            Dispatch(s, Message(c, true, card), env)
              == Outcome(CardCapture, s.(sessions := WithAwaitingCard(s.sessions, c, false)),
                         [Send(c, CardEcho(card)), Alert("Tarjeta personalizada", c, "", "", card),
                          Send(c, DeliveryDetailsRequest)])
  {
    CardText(c);
  }

  /**
    A fresh conversation in business hours: "hola" brings up the menu and changes nothing;
    "1" shows the favourites and starts waiting for the card text; the next text is taken
    as the card, echoed, forwarded to the operator, and the wait ends with no form started.
   */
  lemma CardOrderConversation(s: State, c: string, env: Env)
    requires Valid(s.sessions)
    requires IsBusinessHours(env.hour, env.config.businessStart, env.config.businessEnd)
    requires !AwaitingCard(s.sessions, c) && FormOf(s.sessions, c) == None
    ensures Dispatch(s, Message(c, true, "hola"), env).stage == Menu
    ensures var s1 := Dispatch(s, Message(c, true, "1"), env).state;
            && AwaitingCard(s1.sessions, c) && Valid(s1.sessions)
    ensures var s1 := Dispatch(s, Message(c, true, "1"), env).state;
            var o := Dispatch(s1, Message(c, true, "Feliz cumple Ana"), env);
            && o.stage == CardCapture
            && o.events[0] == Send(c, CardEcho("Feliz cumple Ana"))
            && !AwaitingCard(o.state.sessions, c) && FormOf(o.state.sessions, c) == None
  {
    HolaShowsMenu(s, c, env);
    OneArmsCard(s, c, env);
    CardTaken(s.(sessions := WithAwaitingCard(s.sessions, c, true)), c, env);
  }

  /** With no card awaited and no form stored, "hola" brings up the menu and changes nothing. */
  lemma HolaShowsMenu(s: State, c: string, env: Env)
    requires Valid(s.sessions)
    requires IsBusinessHours(env.hour, env.config.businessStart, env.config.businessEnd)
    requires !AwaitingCard(s.sessions, c) && FormOf(s.sessions, c) == None
    ensures Dispatch(s, Message(c, true, "hola"), env) == Outcome(Menu, s, [Send(c, MainMenu)])
  {
    HolaText(c);
    HolaIsMenuWord();
    MenuWordShowsMenu(s, Message(c, true, "hola"), env);
  }

  /** With no card awaited and no form stored, "1" starts waiting for the card text and keeps every stored form pending. */
  lemma OneArmsCard(s: State, c: string, env: Env)
    requires Valid(s.sessions)
    requires IsBusinessHours(env.hour, env.config.businessStart, env.config.businessEnd)
    requires !AwaitingCard(s.sessions, c) && FormOf(s.sessions, c) == None
    ensures var s1 := Dispatch(s, Message(c, true, "1"), env).state;
            && s1 == s.(sessions := WithAwaitingCard(s.sessions, c, true))
            && AwaitingCard(s1.sessions, c) && FormOf(s1.sessions, c) == None && Valid(s1.sessions)
  {
    OneText(c);
    OneShowsFavorites(s, Message(c, true, "1"), env);
    SettersKeepValid(s.sessions, c, true, Forms.Form("", [], 0, [], ""));
  }

  lemma AskTrimmed() ensures Trim("quiero el OSO1") == "quiero el OSO1" { PlainTrim("quiero el OSO1"); }

  /** "quiero el OSO1" arrives as itself and is neither a menu word nor "1". */
  lemma AskText(c: string)
    ensures MessageText(Message(c, true, "quiero el OSO1")) == "quiero el OSO1"
    ensures Lower("quiero el OSO1") !in MenuWords && Lower("quiero el OSO1") != "1"
  {
    AskTrimmed();
    AskForBearMatches();
    assert "quiero el oso1" !in MenuWords;
  }

  /** With the cache stale, the lookup loads the sample sheet, keeps it stamped now and finds the bear. */
  lemma SampleLookup(s: State, env: Env)
    requires env.config.inventoryUrlSet && env.inventoryFeed == Catalog.Fetched(SampleSheet())
    requires !Catalog.Fresh(s.inventory, env.now, env.config.inventoryTtl)
    ensures InventoryLookup(s, "quiero el OSO1", env)
              == (s.(inventory := Catalog.Snapshot(env.now, [Bear()])), Some(Bear()))
  {
    SampleSheetDecodes();
    Catalog.RefreshReplaces(s.inventory, env.now, env.config.inventoryTtl, SampleSheet(), Inventory.Decode);
    AskForBearMatches();
  }

  /**
    The sample sheet being served and the cache stale: asking for "OSO1" loads the sheet,
    finds the bear, reports it out of stock and alerts the operator, and the cache now
    holds the bear stamped with the current time.
   */
  lemma OutOfStockConversation(s: State, c: string, env: Env)
    requires Valid(s.sessions)
    requires IsBusinessHours(env.hour, env.config.businessStart, env.config.businessEnd)
    requires !AwaitingCard(s.sessions, c) && FormOf(s.sessions, c) == None
    requires env.config.inventoryUrlSet && env.inventoryFeed == Catalog.Fetched(SampleSheet())
    requires !Catalog.Fresh(s.inventory, env.now, env.config.inventoryTtl)
    ensures Dispatch(s, Message(c, true, "quiero el OSO1"), env)
              == Outcome(InventoryReply, s.(inventory := Catalog.Snapshot(env.now, [Bear()])),
                         [Send(c, OutOfStock("Oso gigante")),
                          Alert("Sin stock", c, "Oso gigante", "OSO1", "Inventario sin stock")])
  {
    AskText(c);
    SampleLookup(s, env);
    FoundItemReplies(s, Message(c, true, "quiero el OSO1"), env, Bear());
  }
}
