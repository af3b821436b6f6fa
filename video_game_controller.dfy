/**
 * The create, edit and delete endpoints of the video-game API, as transitions
 * of a store: the games table, the editors and categories that can be looked
 * up, and the next id the database will generate.
 *
 * Each endpoint is given twice: as a function from the old store to the
 * response and the new store (the specification, about which the lemmas
 * speak), and as a method that does what the controller does, field by field,
 * on a managed entity, and is proved to produce exactly that outcome.
 *
 * The request is the decoded JSON body; a key that is absent and a key whose
 * value is null are both None, which is all that `??` and isset-style reads
 * distinguish.
 */
module VideoGameController {
  import opened Wrappers
  import opened VideoGameEntity

  const GAME_NOT_FOUND := "Jeu vidéo introuvable."
  const EDITOR_NOT_FOUND_ON_EDIT := "L'éditeur est introuvable."
  const EDITOR_NOT_FOUND_ON_CREATE := "Editeur introuvable."
  const CATEGORIES_NOT_FOUND := "Une ou plusieurs catégories introuvables."

  datatype Request = Request(
    title: Option<string>,
    releaseDate: Option<string>,
    description: Option<string>,
    editor: Option<EditorId>,
    categories: Option<seq<CategoryId>>)

  datatype Response =
    | Success                             // {"status": "success"}
    | Created(id: nat, game: GameRow)     // the stored game, and its Location
    | NotFound(error: string)
    | BadRequest(violations: seq<string>)
    | ServerError                         // an uncaught TypeError or Doctrine exception

  /** What the controller can observe of the database. */
  datatype Db = Db(games: map<nat, GameRow>, editors: set<EditorId>, categories: set<CategoryId>, nextId: nat)

  datatype Outcome = Outcome(response: Response, db: Db)

  /** A row every reference of which resolves and that meets the entity's constraints. */
  predicate Storable(db: Db, g: GameRow) {
    && Conforms(g)
    && g.editor.value in db.editors
    && NoDuplicates(g.categories)
    && (forall c :: c in g.categories ==> c in db.categories)
  }

  /** What every endpoint keeps true of the store: ids below the generator, stored rows storable. */
  predicate Consistent(db: Db) {
    forall id :: id in db.games ==> id < db.nextId && Storable(db, db.games[id])
  }

  /** `!empty($data['releaseDate'])` on a string: PHP counts "" and "0" as empty. */
  predicate IsNonEmpty(s: Option<string>) {
    s.Some? && s.value != "" && s.value != "0"
  }

  /**
   * `findBy(['id' => $ids])`: every known category whose id is listed, once,
   * however often it is listed (the database's own order is not modelled:
   * first listing order is used).
   */
  function FindCategories(ids: seq<CategoryId>, known: set<CategoryId>): (found: seq<CategoryId>)
    ensures NoDuplicates(found)
    ensures forall c :: c in found <==> c in ids && c in known
    ensures |found| <= |ids|
  {
    if ids == [] then []
    else
      var found := FindCategories(ids[..|ids| - 1], known);
      var c := ids[|ids| - 1];
      assert ids == ids[..|ids| - 1] + [c];
      if c in known && c !in found then found + [c] else found
  }

  /** The count check passes exactly when no id is repeated and every id resolves. */
  lemma {:induction false} FoundAllIffDistinctAndKnown(ids: seq<CategoryId>, known: set<CategoryId>)
    ensures |FindCategories(ids, known)| == |ids| <==> NoDuplicates(ids) && forall c :: c in ids ==> c in known
  {
    if ids != [] {
      var p, c := ids[..|ids| - 1], ids[|ids| - 1];
      assert ids == p + [c];
      FoundAllIffDistinctAndKnown(p, known);
      if |FindCategories(ids, known)| == |ids| {
        assert c in known && c !in FindCategories(p, known);
        assert c !in p;
        forall i, j | 0 <= i < j < |ids| ensures ids[i] != ids[j] {
          if j < |ids| - 1 {
            assert ids[i] == p[i] && ids[j] == p[j];
          } else {
            assert ids[i] == p[i];
          }
        }
      }
      if NoDuplicates(ids) && forall x :: x in ids ==> x in known {
        assert NoDuplicates(p) by {
          forall i, j | 0 <= i < j < |p| ensures p[i] != p[j] {
            assert p[i] == ids[i] && p[j] == ids[j];
          }
        }
        assert c !in p by {
          forall k | 0 <= k < |p| ensures p[k] != c {
            assert p[k] == ids[k];
          }
        }
      }
    }
  }

  /** The loop `foreach ($categories as $category) $videoGame->addCategory($category)`. */
  function AddCategories(s: seq<CategoryId>, found: seq<CategoryId>): seq<CategoryId> {
    if found == [] then s
    else WithCategory(AddCategories(s, found[..|found| - 1]), found[|found| - 1])
  }

  /** Adding categories keeps the existing ones in place and in order, adds only the given ones, and keeps the collection duplicate-free. */
  lemma {:induction false} AddCategoriesFacts(s: seq<CategoryId>, found: seq<CategoryId>)
    ensures |s| <= |AddCategories(s, found)| && AddCategories(s, found)[..|s|] == s
    ensures forall c :: c in AddCategories(s, found) <==> c in s || c in found
    ensures NoDuplicates(s) ==> NoDuplicates(AddCategories(s, found))
  {
    if found != [] {
      var p, c := found[..|found| - 1], found[|found| - 1];
      assert found == p + [c];
      AddCategoriesFacts(s, p);
      WithCategoryFacts(AddCategories(s, p), c);
      var r := AddCategories(s, found);
      assert r[..|AddCategories(s, p)|] == AddCategories(s, p);
      assert r[..|s|] == AddCategories(s, p)[..|AddCategories(s, p)|][..|s|];
    }
  }

  /** Adding a duplicate-free list to an empty collection yields that list. */
  lemma {:induction false} AddCategoriesToEmpty(found: seq<CategoryId>)
    requires NoDuplicates(found)
    ensures AddCategories([], found) == found
  {
    if found != [] {
      var p, c := found[..|found| - 1], found[|found| - 1];
      assert NoDuplicates(p) by {
        forall i, j | 0 <= i < j < |p| ensures p[i] != p[j] {
          assert p[i] == found[i] && p[j] == found[j];
        }
      }
      AddCategoriesToEmpty(p);
      assert c !in p by {
        forall k | 0 <= k < |p| ensures p[k] != c {
          assert p[k] == found[k];
        }
      }
      assert found == p + [c];
    }
  }

  /** The entity after the edit's setters and category loop, before validation. */
  function EditedRow(stored: GameRow, title: string, description: string, req: Request,
                     editor: EditorId, found: seq<CategoryId>): GameRow
  {
    GameRow(
      Some(title),
      if IsNonEmpty(req.releaseDate) then Some(Date(req.releaseDate.value)) else stored.releaseDate,
      Some(description),
      AddCategories(stored.categories, found),
      Some(editor),
      stored.coverImage)
  }

  /** PUT /api/v1/video_games/{id}: partial update of a stored game. */
  function EditOutcome(db: Db, id: nat, req: Request): Outcome {
    if id !in db.games then Outcome(NotFound(GAME_NOT_FOUND), db)
    else
      var stored := db.games[id];
      var title := if req.title.Some? then req.title else stored.title;
      var description := if req.description.Some? then req.description else stored.description;
      if title.None? || description.None? then Outcome(ServerError, db)  // a setter given null
      else if req.editor.None? then Outcome(ServerError, db)  // find(null): missing identifier
      else if req.editor.value !in db.editors then Outcome(NotFound(EDITOR_NOT_FOUND_ON_EDIT), db)
      else if req.categories.None? then Outcome(ServerError, db)  // count(null)
      else
        var ids := req.categories.value;
        var found := FindCategories(ids, db.categories);
        if |found| != |ids| then Outcome(NotFound(CATEGORIES_NOT_FOUND), db)
        else
          var edited := EditedRow(stored, title.value, description.value, req, req.editor.value, found);
          if Violations(edited) != [] then Outcome(BadRequest(Violations(edited)), db)
          else Outcome(Success, db.(games := db.games[id := edited]))
  }

  /** The entity after the create's setters and category loop, before validation. */
  function CreatedRow(req: Request, found: seq<CategoryId>): GameRow
    requires req.title.Some? && req.description.Some? && req.editor.Some?
  {
    GameRow(
      req.title,
      Some(Date(req.releaseDate.GetOr(""))),  // new \DateTime(null) is the current time
      req.description,
      AddCategories([], found),
      req.editor,
      None)
  }

  /** POST /api/v1/video_games: build, validate and persist a new game. */
  function CreateOutcome(db: Db, req: Request): Outcome {
    if req.title.None? || req.description.None? then Outcome(ServerError, db)  // a setter given null
    else if req.editor.None? then Outcome(ServerError, db)  // find(null): missing identifier
    else if req.editor.value !in db.editors then Outcome(NotFound(EDITOR_NOT_FOUND_ON_CREATE), db)
    else
      var ids := req.categories.GetOr([]);
      var found := FindCategories(ids, db.categories);
      if |found| != |ids| then Outcome(NotFound(CATEGORIES_NOT_FOUND), db)
      else
        var row := CreatedRow(req, found);
        if Violations(row) != [] then Outcome(BadRequest(Violations(row)), db)
        else Outcome(Created(db.nextId, row), db.(games := db.games[db.nextId := row], nextId := db.nextId + 1))
  }

  /** DELETE /api/v1/video_games/{id}. */
  function DeleteOutcome(db: Db, id: nat): Outcome {
    if id !in db.games then Outcome(NotFound(GAME_NOT_FOUND), db)
    else Outcome(Success, db.(games := db.games - {id}))
  }

  // ---------------------------------------------------------------------------
  // Properties of the transitions

  /** Editing a missing id answers 404 and changes nothing. */
  lemma EditMissingGame(db: Db, id: nat, req: Request)
    requires id !in db.games
    ensures EditOutcome(db, id, req) == Outcome(NotFound(GAME_NOT_FOUND), db)
  {
  }

  /** Every edit that does not succeed leaves the store as it was. */
  lemma EditFailureChangesNothing(db: Db, id: nat, req: Request)
    ensures EditOutcome(db, id, req).response != Success ==> EditOutcome(db, id, req).db == db
  {
  }

  /**
   * An edit succeeds only when the game exists, the editor exists, every
   * requested category resolves and none is repeated, and the edited game
   * passes validation; then only that game's row changes.
   */
  lemma EditSucceedsOnlyIfChecksPass(db: Db, id: nat, req: Request)
    requires EditOutcome(db, id, req).response == Success
    ensures id in db.games
    ensures req.editor.Some? && req.editor.value in db.editors
    ensures req.categories.Some? && NoDuplicates(req.categories.value)
    ensures forall c :: c in req.categories.value ==> c in db.categories
    ensures var after := EditOutcome(db, id, req).db;
      id in after.games && Conforms(after.games[id]) && after == db.(games := db.games[id := after.games[id]])
  {
    FoundAllIffDistinctAndKnown(req.categories.value, db.categories);
  }

  /**
   * A successful edit is a partial update: an absent title or description
   * keeps the stored one, the release date changes only for a non-empty
   * value, the editor is the requested one, and categories are only added.
   */
  lemma EditIsPartialUpdate(db: Db, id: nat, req: Request)
    requires EditOutcome(db, id, req).response == Success
    ensures id in db.games && id in EditOutcome(db, id, req).db.games
    ensures var old_ := db.games[id]; var new_ := EditOutcome(db, id, req).db.games[id];
      && new_.title == (if req.title.Some? then req.title else old_.title)
      && new_.description == (if req.description.Some? then req.description else old_.description)
      && new_.releaseDate == (if IsNonEmpty(req.releaseDate) then Some(Date(req.releaseDate.value)) else old_.releaseDate)
      && new_.editor == req.editor
      && new_.coverImage == old_.coverImage
      && |old_.categories| <= |new_.categories| && new_.categories[..|old_.categories|] == old_.categories
      && (forall c :: c in new_.categories <==> c in old_.categories || c in req.categories.value)
  {
    EditSucceedsOnlyIfChecksPass(db, id, req);
    var stored := db.games[id];
    AddCategoriesFacts(stored.categories, FindCategories(req.categories.value, db.categories));
  }

  /**
   * For a stored game with a title and a description, and an existing editor,
   * an unknown or repeated category id answers 404 and changes nothing.
   */
  lemma EditRejectsUnresolvedCategories(db: Db, id: nat, req: Request)
    requires id in db.games && db.games[id].title.Some? && db.games[id].description.Some?
    requires req.editor.Some? && req.editor.value in db.editors && req.categories.Some?
    requires !NoDuplicates(req.categories.value) || exists c :: c in req.categories.value && c !in db.categories
    ensures EditOutcome(db, id, req) == Outcome(NotFound(CATEGORIES_NOT_FOUND), db)
  {
    FoundAllIffDistinctAndKnown(req.categories.value, db.categories);
  }

  /** For a stored game with a title and a description, an unknown editor id answers 404 and changes nothing. */
  lemma EditRejectsUnknownEditor(db: Db, id: nat, req: Request)
    requires id in db.games && db.games[id].title.Some? && db.games[id].description.Some?
    requires req.editor.Some? && req.editor.value !in db.editors
    ensures EditOutcome(db, id, req) == Outcome(NotFound(EDITOR_NOT_FOUND_ON_EDIT), db)
  {
  }

  /** Edits keep the store consistent. */
  lemma EditPreservesConsistency(db: Db, id: nat, req: Request)
    requires Consistent(db)
    ensures Consistent(EditOutcome(db, id, req).db)
  {
    var r := EditOutcome(db, id, req);
    if r.response == Success {
      EditSucceedsOnlyIfChecksPass(db, id, req);
      var stored := db.games[id];
      var found := FindCategories(req.categories.value, db.categories);
      AddCategoriesFacts(stored.categories, found);
      assert Storable(db, r.db.games[id]);
    }
  }

  /**
   * A create succeeds only when title and description are given, the editor
   * exists, every requested category resolves once, and the game validates;
   * it then stores the game under the next generated id, which was free, and
   * changes nothing else. Every other answer leaves the store as it was.
   */
  lemma CreateOutcomeFacts(db: Db, req: Request)
    requires forall id :: id in db.games ==> id < db.nextId
    ensures var r := CreateOutcome(db, req);
      if r.response.Created? then
        && r.response.id == db.nextId && db.nextId !in db.games
        && req.editor.Some? && req.editor.value in db.editors
        && NoDuplicates(req.categories.GetOr([]))
        && (forall c :: c in req.categories.GetOr([]) ==> c in db.categories)
        && r.response.game.categories == req.categories.GetOr([])
        && r.response.game.title == req.title && r.response.game.description == req.description
        && r.response.game.editor == req.editor
        && r.response.game.releaseDate == Some(Date(req.releaseDate.GetOr("")))
        && r.response.game.coverImage.None?
        && Conforms(r.response.game)
        && r.db == db.(games := db.games[db.nextId := r.response.game], nextId := db.nextId + 1)
      else r.db == db
  {
    var r := CreateOutcome(db, req);
    if r.response.Created? {
      var ids := req.categories.GetOr([]);
      FoundAllIffDistinctAndKnown(ids, db.categories);
      FindAllDistinctKnown(ids, db.categories);
      AddCategoriesToEmpty(ids);
    }
  }

  /**
   * Once the lookups pass (title and description given, a known editor,
   * distinct and known category ids), the validator alone decides: a
   * conforming game is stored under the next id and answered 201, any other
   * is answered 400 with its violations and nothing is stored.
   */
  lemma CreateValidationDecides(db: Db, req: Request)
    requires req.title.Some? && req.description.Some?
    requires req.editor.Some? && req.editor.value in db.editors
    requires NoDuplicates(req.categories.GetOr([])) && forall c :: c in req.categories.GetOr([]) ==> c in db.categories
    ensures var row := CreatedRow(req, req.categories.GetOr([]));
      if Conforms(row) then
        CreateOutcome(db, req) == Outcome(Created(db.nextId, row), db.(games := db.games[db.nextId := row], nextId := db.nextId + 1))
      else
        CreateOutcome(db, req) == Outcome(BadRequest(Violations(row)), db)
  {
    var ids := req.categories.GetOr([]);
    FindAllDistinctKnown(ids, db.categories);
    assert FindCategories(ids, db.categories) == ids;
  }

  /**
   * Once the lookups of an edit pass (the game exists, title and description
   * resolve, a known editor, distinct and known category ids), the validator
   * alone decides: a conforming edited game is stored and answered 200, any
   * other is answered 400 with its violations and nothing is stored.
   */
  lemma EditValidationDecides(db: Db, id: nat, req: Request)
    requires id in db.games
    requires req.title.Some? || db.games[id].title.Some?
    requires req.description.Some? || db.games[id].description.Some?
    requires req.editor.Some? && req.editor.value in db.editors
    requires req.categories.Some? && NoDuplicates(req.categories.value)
    requires forall c :: c in req.categories.value ==> c in db.categories
    ensures var stored := db.games[id];
      var row := EditedRow(stored,
                           if req.title.Some? then req.title.value else stored.title.value,
                           if req.description.Some? then req.description.value else stored.description.value,
                           req, req.editor.value, req.categories.value);
      if Conforms(row) then
        EditOutcome(db, id, req) == Outcome(Success, db.(games := db.games[id := row]))
      else
        EditOutcome(db, id, req) == Outcome(BadRequest(Violations(row)), db)
  {
    FoundAllIffDistinctAndKnown(req.categories.value, db.categories);
    FindAllDistinctKnown(req.categories.value, db.categories);
  }

  /** With title, description and an existing editor given, an unknown or repeated category id answers 404 and changes nothing. */
  lemma CreateRejectsUnresolvedCategories(db: Db, req: Request)
    requires req.title.Some? && req.description.Some?
    requires req.editor.Some? && req.editor.value in db.editors
    requires var ids := req.categories.GetOr([]);
      !NoDuplicates(ids) || exists c :: c in ids && c !in db.categories
    ensures CreateOutcome(db, req) == Outcome(NotFound(CATEGORIES_NOT_FOUND), db)
  {
    FoundAllIffDistinctAndKnown(req.categories.GetOr([]), db.categories);
  }

  /** With title and description given, an unknown editor id answers 404 and changes nothing. */
  lemma CreateRejectsUnknownEditor(db: Db, req: Request)
    requires req.title.Some? && req.description.Some?
    requires req.editor.Some? && req.editor.value !in db.editors
    ensures CreateOutcome(db, req) == Outcome(NotFound(EDITOR_NOT_FOUND_ON_CREATE), db)
  {
  }

  /** When every id is distinct and known, findBy returns exactly the requested ids. */
  lemma {:induction false} FindAllDistinctKnown(ids: seq<CategoryId>, known: set<CategoryId>)
    requires NoDuplicates(ids) && forall c :: c in ids ==> c in known
    ensures FindCategories(ids, known) == ids
  {
    if ids != [] {
      var p, c := ids[..|ids| - 1], ids[|ids| - 1];
      assert NoDuplicates(p) by {
        forall i, j | 0 <= i < j < |p| ensures p[i] != p[j] {
          assert p[i] == ids[i] && p[j] == ids[j];
        }
      }
      assert c !in p by {
        forall k | 0 <= k < |p| ensures p[k] != c {
          assert p[k] == ids[k];
        }
      }
      assert ids == p + [c];
      FindAllDistinctKnown(p, known);
    }
  }

  /** Creates keep the store consistent. */
  lemma CreatePreservesConsistency(db: Db, req: Request)
    requires Consistent(db)
    ensures Consistent(CreateOutcome(db, req).db)
  {
    CreateOutcomeFacts(db, req);
  }

  /**
   * As written, the validator lets a create with an empty category list
   * through: the built game has no violations although it has no category.
   */
  lemma CreateWithoutCategoriesAsWritten(db: Db, req: Request)
    requires req.title.Some? && req.title.value != "" && |req.title.value| <= TITLE_MAX_LENGTH
    requires req.description.Some? && req.description.value != ""
    requires req.editor.Some? && req.editor.value in db.editors
    requires req.categories.GetOr([]) == []
    ensures ViolationsAsWritten(CreatedRow(req, FindCategories(req.categories.GetOr([]), db.categories))) == []
    ensures CreateOutcome(db, req) == Outcome(BadRequest([CATEGORY_REQUIRED]), db)
  {
    var row := CreatedRow(req, []);
    EmptyCategoriesPassAsWritten(row);
  }

  /** Deleting a missing id answers 404; otherwise exactly that game is removed. */
  lemma DeleteOutcomeFacts(db: Db, id: nat)
    ensures var r := DeleteOutcome(db, id);
      if id in db.games then r.response == Success && r.db == db.(games := db.games - {id}) && id !in r.db.games
      else r == Outcome(NotFound(GAME_NOT_FOUND), db)
  {
  }

  /** Deletes keep the store consistent. */
  lemma DeletePreservesConsistency(db: Db, id: nat)
    requires Consistent(db)
    ensures Consistent(DeleteOutcome(db, id).db)
  {
  }

  // ---------------------------------------------------------------------------
  // The controller on a mutable store

  /** The database behind the entity manager and the three repositories. */
  class Database {
    var games: map<nat, GameRow>
    var editors: set<EditorId>
    var categories: set<CategoryId>
    var nextId: nat

    function State(): Db
      reads this
    {
      Db(games, editors, categories, nextId)
    }

    constructor (db: Db)
      ensures State() == db
    {
      games, editors, categories, nextId := db.games, db.editors, db.categories, db.nextId;
    }

    /** VideoGameRepository::find: a fresh managed entity for a stored row, or null. */
    method Find(id: nat) returns (game: VideoGame?)
      ensures game == null <==> id !in games
      ensures game != null ==> fresh(game) && game.id == Some(id) && game.Row() == games[id]
    {
      if id in games {
        game := new VideoGame.Load(id, games[id]);
      } else {
        game := null;
      }
    }

    /** EntityManager::flush for a managed entity: its row is written back. */
    method Flush(game: VideoGame)
      requires game.id.Some?
      modifies this
      ensures State() == old(State()).(games := old(games)[game.id.value := game.Row()])
    {
      games := games[game.id.value := game.Row()];
    }

    /** EntityManager::persist then flush for a new entity: the database generates its id. */
    method PersistAndFlush(game: VideoGame)
      requires game.id.None?
      modifies this, game
      ensures game.id == Some(old(nextId)) && game.Row() == old(game.Row())
      ensures State() == old(State()).(games := old(games)[old(nextId) := game.Row()], nextId := old(nextId) + 1)
    {
      games := games[nextId := game.Row()];
      game.id := Some(nextId);
      nextId := nextId + 1;
    }

    /** EntityManager::remove then flush. */
    method RemoveAndFlush(id: nat)
      modifies this
      ensures State() == old(State()).(games := old(games) - {id})
    {
      games := games - {id};
    }
  }

  /** The controllers' `foreach ($categories as $category) $videoGame->addCategory($category)`. */
  method AddFoundCategories(game: VideoGame, found: seq<CategoryId>)
    modifies game
    ensures game.id == old(game.id)
    ensures game.Row() == old(game.Row()).(categories := AddCategories(old(game.categories), found))
  {
    var i := 0;
    while i < |found|
      invariant 0 <= i <= |found|
      invariant game.id == old(game.id)
      invariant game.Row() == old(game.Row()).(categories := AddCategories(old(game.categories), found[..i]))
    {
      game.AddCategory(found[i]);
      assert found[..i + 1][..i] == found[..i];
      i := i + 1;
    }
    assert found[..i] == found;
  }

  method EditVideoGame(db: Database, id: nat, req: Request) returns (response: Response)
    modifies db
    ensures Outcome(response, db.State()) == EditOutcome(old(db.State()), id, req)
  {
    var game := db.Find(id);
    if game == null {
      return NotFound(GAME_NOT_FOUND);
    }
    ghost var stored := game.Row();
    var title := if req.title.Some? then req.title else game.title;
    if title.None? {
      return ServerError;
    }
    game.SetTitle(title.value);
    if IsNonEmpty(req.releaseDate) {
      game.SetReleaseDate(Date(req.releaseDate.value));
    }
    var description := if req.description.Some? then req.description else game.description;
    if description.None? {
      return ServerError;
    }
    game.SetDescription(description.value);

    if req.editor.None? {
      return ServerError;
    }
    var editor := req.editor.value;
    if editor !in db.editors {
      return NotFound(EDITOR_NOT_FOUND_ON_EDIT);
    }
    game.SetEditor(Some(editor));

    if req.categories.None? {
      return ServerError;
    }
    var found := FindCategories(req.categories.value, db.categories);
    if |found| != |req.categories.value| {
      return NotFound(CATEGORIES_NOT_FOUND);
    }
    AddFoundCategories(game, found);
    assert game.Row() == EditedRow(stored, title.value, description.value, req, editor, found);

    var violations := Violations(game.Row());
    if violations != [] {
      return BadRequest(violations);
    }
    db.Flush(game);
    response := Success;
  }

  method CreateVideoGame(db: Database, req: Request) returns (response: Response)
    modifies db
    ensures Outcome(response, db.State()) == CreateOutcome(old(db.State()), req)
  {
    var game := new VideoGame();
    if req.title.None? {
      return ServerError;
    }
    game.SetTitle(req.title.value);
    game.SetReleaseDate(Date(req.releaseDate.GetOr("")));
    if req.description.None? {
      return ServerError;
    }
    game.SetDescription(req.description.value);

    if req.editor.None? {
      return ServerError;
    }
    var editor := req.editor.value;
    if editor !in db.editors {
      return NotFound(EDITOR_NOT_FOUND_ON_CREATE);
    }
    game.SetEditor(Some(editor));

    var ids := req.categories.GetOr([]);
    var found := FindCategories(ids, db.categories);
    if |found| != |ids| {
      return NotFound(CATEGORIES_NOT_FOUND);
    }
    AddFoundCategories(game, found);
    assert game.Row() == CreatedRow(req, found);

    var violations := Violations(game.Row());
    if violations != [] {
      return BadRequest(violations);
    }
    var id := db.nextId;
    db.PersistAndFlush(game);
    response := Created(id, game.Row());
  }

  method DeleteVideoGame(db: Database, id: nat) returns (response: Response)
    modifies db
    ensures Outcome(response, db.State()) == DeleteOutcome(old(db.State()), id)
  {
    var game := db.Find(id);
    if game == null {
      return NotFound(GAME_NOT_FOUND);
    }
    db.RemoveAndFlush(id);
    response := Success;
  }
}
