/**
 * The game-management records (Game-Development-System/game_managment_system.py):
 * validated games, developers, publishers and platforms, and the
 * class-level counters that hand out their ids.
 *
 * Python objects are shared by reference: a game created by a developer is
 * the same object a publisher later publishes. The model keeps every game
 * once, in a catalog keyed by its id, and developers, publishers and
 * platforms hold ids.
 */
module GameManagement {
  import opened Wrappers
  import opened Python
  import opened Text
  import opened Phone

  datatype Date = Date(year: int, month: int, day: int)

  /** The release date every game starts with: date(2012, 1, 1). */
  const InitialReleaseDate := Date(2012, 1, 1)

  /** The two concrete Game classes. */
  datatype Kind = StrategyGame | ActionGame

  datatype Game = Game(kind: Kind, title: string, genre: string, releaseDate: Date, price: real,
                       idPublisher: nat, idDeveloper: nat, idGame: nat)

  datatype Developer = Developer(name: string, contactInfo: string, games: seq<nat>, idDeveloper: nat)

  datatype Publisher = Publisher(name: string, contactInfo: string, games: seq<nat>, idPublisher: nat)

  datatype Platform = Platform(name: string, games: seq<nat>, developers: seq<nat>, publishers: seq<nat>)

  /** Game.game_id, Developer.developer_id and Publisher.publisher_id. */
  datatype Counters = Counters(game: nat, developer: nat, publisher: nat)

  /** Every game object, by id, and the counters. */
  datatype World = World(catalog: map<nat, Game>, counters: Counters)

  /**
   * The title, genre, person-name and platform-name setters: a str is
   * required (TypeError), it must not be blank (ValueError), and it is stored
   * stripped.
   */
  function ValidateName(v: Value): (r: Outcome<string>)
    ensures !v.StrValue? ==> r == Err(TypeError)
    ensures v.StrValue? && AllSpace(v.s) ==> r == Err(ValueError)
    ensures r.Ok? <==> v.StrValue? && !AllSpace(v.s)
    ensures r.Ok? ==> v.StrValue? && r.value == Strip(v.s) && r.value != []
  {
    if !v.StrValue? then Err(TypeError)
    else if Strip(v.s) == [] then Err(ValueError)
    else Ok(Strip(v.s))
  }

  /** Setting a stored name again stores the same name: the setter is idempotent. */
  lemma NameResetIsIdentity(v: Value)
    requires ValidateName(v).Ok?
    ensures ValidateName(StrValue(ValidateName(v).value)) == ValidateName(v)
  {
    StripIdempotent(v.s);
  }

  /** The price setter: a number is required (bool counts), a negative one is refused, and float(price) is stored. */
  function ValidatePrice(v: Value): (r: Outcome<real>)
    ensures !IsNumber(v) ==> r == Err(TypeError)
    ensures IsNumber(v) && AsReal(v) < 0.0 ==> r == Err(ValueError)
    ensures r.Ok? <==> IsNumber(v) && AsReal(v) >= 0.0
    ensures r.Ok? ==> r.value == AsReal(v) && r.value >= 0.0
  {
    if !IsNumber(v) then Err(TypeError)
    else if AsReal(v) < 0.0 then Err(ValueError)
    else Ok(AsReal(v))
  }

  /** The id setters: an int is required (bool counts) and it must not be negative. */
  function ValidateId(v: Value): (r: Outcome<nat>)
    ensures !IsInt(v) ==> r == Err(TypeError)
    ensures r.Ok? <==> IsInt(v) && AsInt(v) >= 0
    ensures r.Ok? ==> r.value == AsInt(v)
    ensures r.Err? && IsInt(v) ==> r.error == ValueError
  {
    if !IsInt(v) then Err(TypeError)
    else if AsInt(v) < 0 then Err(ValueError)
    else Ok(AsInt(v))
  }

  /** The contact_info setter: a str (TypeError) that is an Armenian phone number (ValueError), stored as given. */
  function ValidateContact(v: Value): (r: Outcome<string>)
    ensures !v.StrValue? ==> r == Err(TypeError)
    ensures r.Ok? <==> v.StrValue? && Matches(v.s)
    ensures r.Ok? ==> r.value == v.s
    ensures r.Err? && v.StrValue? ==> r.error == ValueError
  {
    if !v.StrValue? then Err(TypeError)
    else
      ValidIffMatches(v.s);
      if !IsValidPhone(v.s) then Err(ValueError) else Ok(v.s)
  }

  /**
   * Game.__init__: title, genre, release date, price, publisher id 0,
   * developer id, then id_game from the counter. A failing setter raises
   * before the counter is read.
   */
  function NewGame(kind: Kind, title: Value, genre: Value, price: Value, idDeveloper: nat, counter: nat)
    : (r: Outcome<Game>)
    ensures r.Ok? <==> ValidateName(title).Ok? && ValidateName(genre).Ok? && ValidatePrice(price).Ok?
    ensures r.Ok? ==> r.value.idGame == counter && r.value.idPublisher == 0 && r.value.idDeveloper == idDeveloper
    ensures r.Ok? ==> r.value.releaseDate == InitialReleaseDate && r.value.kind == kind
    ensures r.Ok? ==> && r.value.title == ValidateName(title).value
                      && r.value.genre == ValidateName(genre).value
                      && r.value.price == ValidatePrice(price).value
    ensures r.Err? ==> r.error == (if ValidateName(title).Err? then ValidateName(title).error
                                   else if ValidateName(genre).Err? then ValidateName(genre).error
                                   else ValidatePrice(price).error)
  {
    var t :- ValidateName(title);
    var g :- ValidateName(genre);
    var p :- ValidatePrice(price);
    Ok(Game(kind, t, g, InitialReleaseDate, p, 0, idDeveloper, counter))
  }

  /** str.casefold(), restricted to ASCII letters. */
  function Casefold(s: string): string {
    Lower(s)
  }

  /**
   * Developer.create_game: genre.casefold() picks the class (a genre that
   * is not a str has no casefold: AttributeError; any other genre:
   * ValueError); the game is built, takes the next game id, enters the
   * catalog and is appended to the developer's games. On any error the
   * world and the developer are unchanged.
   */
  function CreateGame(w: World, dev: Developer, title: Value, genre: Value, price: Value)
    : (r: Outcome<(World, Developer)>)
    ensures !genre.StrValue? ==> r == Err(AttributeError)
    ensures genre.StrValue? && Casefold(genre.s) != "strategy" && Casefold(genre.s) != "action"
            ==> r == Err(ValueError)
    ensures r.Ok? <==> && genre.StrValue? && (Casefold(genre.s) == "strategy" || Casefold(genre.s) == "action")
                       && ValidateName(title).Ok? && ValidateName(genre).Ok? && ValidatePrice(price).Ok?
    ensures genre.StrValue? && (Casefold(genre.s) == "strategy" || Casefold(genre.s) == "action") && r.Err?
            ==> r.error == (if ValidateName(title).Err? then ValidateName(title).error
                            else if ValidateName(genre).Err? then ValidateName(genre).error
                            else ValidatePrice(price).error)
    ensures r.Ok? ==> var (w', dev') := r.value;
              && w'.counters == w.counters.(game := w.counters.game + 1)
              && w.counters.game in w'.catalog
              && w'.catalog == w.catalog[w.counters.game := w'.catalog[w.counters.game]]
              && dev' == dev.(games := dev.games + [w.counters.game])
              && w'.catalog[w.counters.game].kind == (if Casefold(genre.s) == "strategy" then StrategyGame else ActionGame)
              && ValidateName(title).Ok? && ValidatePrice(price).Ok?
              && w'.catalog[w.counters.game].title == ValidateName(title).value
              && w'.catalog[w.counters.game].genre == Strip(genre.s)
              && w'.catalog[w.counters.game].price == ValidatePrice(price).value
              && w'.catalog[w.counters.game].idDeveloper == dev.idDeveloper
              && w'.catalog[w.counters.game].idGame == w.counters.game
  {
    if !genre.StrValue? then Err(AttributeError)
    else
      var kind :- if Casefold(genre.s) == "strategy" then Ok(StrategyGame)
                  else if Casefold(genre.s) == "action" then Ok(ActionGame)
                  else Err(ValueError);
      var game :- NewGame(kind, title, genre, price, dev.idDeveloper, w.counters.game);
      var id := w.counters.game;
      Ok((World(w.catalog[id := game], w.counters.(game := id + 1)), dev.(games := dev.games + [id])))
  }

  /** Every id in the catalog was handed out already, and every developer's games are in it. */
  predicate WorldInv(w: World, devs: seq<Developer>) {
    && (forall id | id in w.catalog :: id < w.counters.game && w.catalog[id].idGame == id)
    && (forall k, i | 0 <= k < |devs| && 0 <= i < |devs[k].games| :: devs[k].games[i] in w.catalog)
  }

  /**
   * A created game gets an id no other game has: the catalog grows by
   * exactly one game and keeps every game it had.
   */
  lemma CreateGameFresh(w: World, dev: Developer, title: Value, genre: Value, price: Value)
    requires forall id | id in w.catalog :: id < w.counters.game
    requires CreateGame(w, dev, title, genre, price).Ok?
    ensures var (w', _) := CreateGame(w, dev, title, genre, price).value;
            && w.counters.game !in w.catalog
            && |w'.catalog| == |w.catalog| + 1
            && (forall id | id in w.catalog :: id in w'.catalog && w'.catalog[id] == w.catalog[id])
            && (forall id | id in w'.catalog :: id < w'.counters.game)
  {
    var w' := CreateGame(w, dev, title, genre, price).value.0;
    var id := w.counters.game;
    assert id !in w.catalog;
    assert w'.catalog == w.catalog[id := w'.catalog[id]];
    assert w'.catalog.Keys == w.catalog.Keys + {id};
  }

  /** create_game by any of the developers keeps the catalog invariant. */
  lemma CreateGameKeepsInv(w: World, devs: seq<Developer>, k: nat, title: Value, genre: Value, price: Value)
    requires WorldInv(w, devs) && k < |devs|
    requires CreateGame(w, devs[k], title, genre, price).Ok?
    ensures var (w', dev') := CreateGame(w, devs[k], title, genre, price).value;
            WorldInv(w', devs[k := dev'])
  {
    var (w', dev') := CreateGame(w, devs[k], title, genre, price).value;
    var devs' := devs[k := dev'];
    forall j, i | 0 <= j < |devs'| && 0 <= i < |devs'[j].games|
      ensures devs'[j].games[i] in w'.catalog
    {
      if j != k || i < |devs[k].games| {
        assert devs'[j].games[i] == devs[j].games[i];
      }
    }
  }

  /** The invalid calls of the sample script each raise ValueError. */
  lemma SampleCreateGameErrors(w: World, dev: Developer)
    ensures CreateGame(w, dev, StrValue("Invalid Game"), StrValue("puzzle"), FloatValue(20.0)) == Err(ValueError)
    ensures CreateGame(w, dev, StrValue(""), StrValue("action"), FloatValue(45.0)) == Err(ValueError)
    ensures CreateGame(w, dev, StrValue("New Game"), StrValue(""), FloatValue(45.0)) == Err(ValueError)
  {
    assert Casefold("puzzle")[0] == 'p';
    assert Casefold("action") == "action" by {
      forall i | 0 <= i < 6 ensures Lower("action")[i] == "action"[i] {
        assert Lower("action")[i] == LowerChar("action"[i]);
      }
    }
    assert AllSpace("");
  }

  /** The position of the first of the developer's games whose title equals title exactly, if any. */
  function FirstWithTitle(ids: seq<nat>, catalog: map<nat, Game>, title: string): (k: Option<nat>)
    requires forall i | 0 <= i < |ids| :: ids[i] in catalog
    ensures k.Some? ==> k.value < |ids| && catalog[ids[k.value]].title == title
    ensures k.Some? ==> forall i | 0 <= i < k.value :: catalog[ids[i]].title != title
    ensures k.None? ==> forall i | 0 <= i < |ids| :: catalog[ids[i]].title != title
  {
    if |ids| == 0 then None
    else if catalog[ids[0]].title == title then Some(0)
    else
      match FirstWithTitle(ids[1..], catalog, title)
      case None => None
      case Some(k) => Some(k + 1)
  }

  /**
   * Developer.update_game: the first of the developer's games whose title
   * equals game_title gets the new release date (the date setter raises
   * TypeError for anything but a date); with no such game nothing changes.
   */
  function UpdateGame(w: World, dev: Developer, title: string, newDate: Arg<Date>): (r: Outcome<World>)
    requires forall i | 0 <= i < |dev.games| :: dev.games[i] in w.catalog
    ensures FirstWithTitle(dev.games, w.catalog, title).None? ==> r == Ok(w)
    ensures r.Err? <==> FirstWithTitle(dev.games, w.catalog, title).Some? && newDate.NotInstance?
    ensures r.Err? ==> r.error == TypeError
    ensures r.Ok? ==> r.value.counters == w.counters && r.value.catalog.Keys == w.catalog.Keys
    ensures r.Ok? && FirstWithTitle(dev.games, w.catalog, title).Some? ==>
              var id := dev.games[FirstWithTitle(dev.games, w.catalog, title).value];
              && r.value.catalog[id] == w.catalog[id].(releaseDate := newDate.obj)
              && forall other | other in w.catalog && other != id :: r.value.catalog[other] == w.catalog[other]
  {
    match FirstWithTitle(dev.games, w.catalog, title)
    case None => Ok(w)
    case Some(k) =>
      match newDate
      case NotInstance => Err(TypeError)
      case Instance(d) =>
        var id := dev.games[k];
        Ok(w.(catalog := w.catalog[id := w.catalog[id].(releaseDate := d)]))
  }

  /** Only the first game with the title changes: a later game with the same title keeps its date. */
  lemma UpdateGameOnlyFirst(w: World, dev: Developer, title: string, d: Date, i: nat, j: nat)
    requires forall k | 0 <= k < |dev.games| :: dev.games[k] in w.catalog
    requires forall a, b | 0 <= a < b < |dev.games| :: dev.games[a] != dev.games[b]
    requires i < j < |dev.games|
    requires w.catalog[dev.games[i]].title == title && w.catalog[dev.games[j]].title == title
    ensures UpdateGame(w, dev, title, Instance(d)).Ok?
    ensures UpdateGame(w, dev, title, Instance(d)).value.catalog[dev.games[j]] == w.catalog[dev.games[j]]
  {
    var k := FirstWithTitle(dev.games, w.catalog, title);
    assert k.Some? && k.value <= i;
  }

  /**
   * Publisher.publish_game: anything but a Game raises TypeError; a game
   * gets the publisher's id as id_publisher and is appended to the
   * publisher's games.
   */
  function PublishGame(w: World, pub: Publisher, game: Arg<nat>): (r: Outcome<(World, Publisher)>)
    requires game.Instance? ==> game.obj in w.catalog
    ensures game.NotInstance? <==> r == Err(TypeError)
    ensures r.Ok? ==> var (w', pub') := r.value;
              && w'.counters == w.counters
              && w'.catalog == w.catalog[game.obj := w.catalog[game.obj].(idPublisher := pub.idPublisher)]
              && pub' == pub.(games := pub.games + [game.obj])
  {
    match game
    case NotInstance => Err(TypeError)
    case Instance(id) =>
      var g := w.catalog[id].(idPublisher := pub.idPublisher);
      Ok((w.(catalog := w.catalog[id := g]), pub.(games := pub.games + [id])))
  }

  /**
   * Person.__init__ followed by the Developer constructor: name and contact
   * are validated first, and only then is the developer counter read and
   * advanced.
   */
  function NewDeveloper(c: Counters, name: Value, contact: Value): (r: Outcome<(Developer, Counters)>)
    ensures r.Ok? <==> ValidateName(name).Ok? && ValidateContact(contact).Ok?
    ensures r.Ok? ==> r.value.0.idDeveloper == c.developer && r.value.0.games == []
                      && r.value.1 == c.(developer := c.developer + 1)
    ensures r.Ok? ==> r.value.0.name == Strip(name.s) && r.value.0.contactInfo == contact.s
  {
    var n :- ValidateName(name);
    var ci :- ValidateContact(contact);
    Ok((Developer(n, ci, [], c.developer), c.(developer := c.developer + 1)))
  }

  /** The Publisher constructor, with its own counter. */
  function NewPublisher(c: Counters, name: Value, contact: Value): (r: Outcome<(Publisher, Counters)>)
    ensures r.Ok? <==> ValidateName(name).Ok? && ValidateContact(contact).Ok?
    ensures r.Ok? ==> r.value.0.idPublisher == c.publisher && r.value.0.games == []
                      && r.value.1 == c.(publisher := c.publisher + 1)
    ensures r.Ok? ==> r.value.0.name == Strip(name.s) && r.value.0.contactInfo == contact.s
  {
    var n :- ValidateName(name);
    var ci :- ValidateContact(contact);
    Ok((Publisher(n, ci, [], c.publisher), c.(publisher := c.publisher + 1)))
  }

  /** Assigning contact_info later: the same validation, and a refused number keeps the old one. */
  function SetContact(dev: Developer, contact: Value): (r: Outcome<Developer>)
    ensures r.Ok? <==> ValidateContact(contact).Ok?
    ensures r.Ok? ==> r.value == dev.(contactInfo := contact.s)
  {
    var ci :- ValidateContact(contact);
    Ok(dev.(contactInfo := ci))
  }

  /** The sample script's reassignment of a short number is refused. */
  lemma ShortContactRefused(dev: Developer)
    ensures SetContact(dev, StrValue("+37412345")) == Err(ValueError)
  {
    RefusedSamples();
  }

  /** Platform(name): the name is validated like a title. */
  function NewPlatform(name: Value): (r: Outcome<Platform>)
    ensures r.Ok? <==> ValidateName(name).Ok?
    ensures r.Ok? ==> r.value.games == [] && r.value.developers == [] && r.value.publishers == []
    ensures r.Ok? ==> r.value.name == Strip(name.s)
  {
    var n :- ValidateName(name);
    Ok(Platform(n, [], [], []))
  }

  /** Platform.add_game, add_developer and add_publisher: TypeError for the wrong class, otherwise an append. */
  function AddGame(p: Platform, game: Arg<nat>): (r: Outcome<Platform>)
    ensures game.NotInstance? <==> r == Err(TypeError)
    ensures r.Ok? ==> r.value == p.(games := p.games + [game.obj])
  {
    match game
    case NotInstance => Err(TypeError)
    case Instance(id) => Ok(p.(games := p.games + [id]))
  }

  function AddDeveloper(p: Platform, dev: Arg<Developer>): (r: Outcome<Platform>)
    ensures dev.NotInstance? <==> r == Err(TypeError)
    ensures r.Ok? ==> r.value == p.(developers := p.developers + [dev.obj.idDeveloper])
  {
    match dev
    case NotInstance => Err(TypeError)
    case Instance(d) => Ok(p.(developers := p.developers + [d.idDeveloper]))
  }

  function AddPublisher(p: Platform, pub: Arg<Publisher>): (r: Outcome<Platform>)
    ensures pub.NotInstance? <==> r == Err(TypeError)
    ensures r.Ok? ==> r.value == p.(publishers := p.publishers + [pub.obj.idPublisher])
  {
    match pub
    case NotInstance => Err(TypeError)
    case Instance(b) => Ok(p.(publishers := p.publishers + [b.idPublisher]))
  }
}
