# Video-game catalogue: newsletter dispatch and game editing, in Dafny

This project models two parts of a Symfony video-game catalogue API.

**The weekly newsletter.** The console command `app:send-newsletter` and the
scheduled message handler both fetch the subscribers and the games released in
the coming week. They stop early if either list is empty. Otherwise they call
`NewsletterService::sendNewsletter` once per subscriber, in list order.
`sendNewsletter` builds one email from the fixed sender `no-reply@monsite.com`,
to that subscriber only, with a fixed subject and a template context of the
subscriber and the whole games list. It hands the email to the mailer and then
sleeps ten seconds. Nothing catches an exception from the mailer: it ends the
loop and the run.

In the model:
- the mailer is a log of accepted messages, each stamped with the clock;
- the transport's failures are a set of attempt numbers at which `send` throws;
- `sleep` advances an integer clock;
- the two repository queries are fixed input sequences.

The command also writes a warning for each early exit, one line per subscriber
sent to, and a closing success message. It returns `Command::SUCCESS` on every
path that returns.

**The VideoGame aggregate.** The entity keeps a duplicate-free, insertion-ordered
collection of categories and declares validation constraints. The controller's
create, edit and delete endpoints are find-or-404, validate-then-persist
transitions over a store. The store holds the games table, the known editors and
categories, and the next generated id.

Each endpoint appears twice:
- a function from the old store to the response and the new store
  (`EditOutcome`, `CreateOutcome`, `DeleteOutcome`); the lemmas are about these;
- a method that works field by field on a managed `VideoGame` object, as the
  controller does, and is proved to produce exactly that outcome.

Create and edit validate with the corrected validator, which requires at least
one category (see "## Findings"); the code as written does not. The create and
edit transitions therefore differ from the code on the inputs listed under
"## Left out".

Several PHP behaviours shape the outcomes:
- `??` falls back when a key is absent or null.
- `empty()` treats `""` and `"0"` as empty, so neither replaces the release date.
- A setter typed `string` that receives null throws a `TypeError`.
- Doctrine's `find(null)` throws (missing identifier).
- `count(null)` throws.

Each of these uncaught exceptions is the `ServerError` response (HTTP 500).
Warnings about undefined array keys are taken as logged, not thrown, as in a
production environment. Categories and editors are identified by id. Doctrine's
identity map gives one object per id, so the collection's identity comparisons
are id comparisons.

The model follows the code, which has none of the following:
- per-recipient failure isolation;
- cover-image embedding or a content-id scheme;
- schedule state in the dispatch core;
- a record of per-subscriber outcomes.

Files: `wrappers.dfy` (Option), `video_game.dfy` (entity), `video_game_controller.dfy`
(controller and store), `newsletter_service.dfy` (service, mailer, clock),
`newsletter_handler.dfy` (scheduled handler), `newsletter_command.dfy` (console command).

## Model

| member | source | states |
|---|---|---|
| `VideoGameEntity.Violations` | src/Entity/VideoGame.php:22-54 | the validator reports no violation exactly when the title is non-blank and at most 255 characters, the release date, description and editor are present and there is at least one category; the category message appears exactly when there is none |
| `VideoGameEntity.EmptyCategoriesPassAsWritten` | src/Entity/VideoGame.php:45-48 | as the attributes are written, a game that meets every other constraint but has no category has no violation (the corrected validator reports only the category message) |
| `VideoGameEntity.WithCategoryFacts` | src/Entity/VideoGame.php:113-120 | after addCategory(c), c is present, the size grows by at most one, the existing order is kept as a prefix, adding a present category changes nothing, adding twice equals adding once, no duplicate is created |
| `VideoGameEntity.WithoutAbsentCategory` | src/Entity/VideoGame.php:122-127 | removing a category that is not in the collection leaves it unchanged |
| `VideoGameEntity.WithoutCategoryAt` | src/Entity/VideoGame.php:122-127 | removeCategory cuts out exactly the first occurrence and keeps every other category in its order |
| `VideoGameEntity.WithoutCategoryKeepsNoDuplicates` | src/Entity/VideoGame.php:122-127 | on a duplicate-free collection, removal leaves the category absent, the collection duplicate-free and every other category present |
| `VideoGameEntity.VideoGame.constructor` | src/Entity/VideoGame.php:20-62 | a new game has an empty category collection and null id, title, date, description, editor and cover |
| `VideoGameEntity.VideoGame.Load` | src/Controller/VideoGameController.php:53 | the entity found for a stored id carries that id and the stored row |
| `VideoGameEntity.VideoGame.SetTitle` | src/Entity/VideoGame.php:74-79 | sets the title and changes no other field |
| `VideoGameEntity.VideoGame.SetReleaseDate` | src/Entity/VideoGame.php:86-91 | sets the release date and changes no other field |
| `VideoGameEntity.VideoGame.SetDescription` | src/Entity/VideoGame.php:98-103 | sets the description and changes no other field |
| `VideoGameEntity.VideoGame.SetEditor` | src/Entity/VideoGame.php:134-139 | sets the editor and changes no other field |
| `VideoGameEntity.VideoGame.SetCoverImage` | src/Entity/VideoGame.php:146-151 | sets the cover image and changes no other field |
| `VideoGameEntity.VideoGame.AddCategory` | src/Entity/VideoGame.php:113-120 | the collection becomes the append-unless-present of the old one; the category is present; no duplicate is created; nothing else changes |
| `VideoGameEntity.VideoGame.RemoveCategory` | src/Entity/VideoGame.php:122-127 | the collection loses its first occurrence of the category; on a duplicate-free collection the category is then absent; nothing else changes |
| `VideoGameController.FindCategories` | src/Controller/VideoGameController.php:73 | the category lookup returns each known requested id exactly once and nothing else, so never more than were requested |
| `VideoGameController.FoundAllIffDistinctAndKnown` | src/Controller/VideoGameController.php:73-76 | the count comparison passes exactly when no id is repeated and every id resolves, so a repeated id fails it |
| `VideoGameController.FindAllDistinctKnown` | src/Controller/VideoGameController.php:116-120 | when the ids are distinct and all known, the lookup returns exactly the requested ids |
| `VideoGameController.AddCategoriesFacts` | src/Controller/VideoGameController.php:77-79 | the category loop keeps the existing categories as a prefix in their order, adds only the found ones, and keeps the collection duplicate-free |
| `VideoGameController.AddCategoriesToEmpty` | src/Controller/VideoGameController.php:122-124 | on a new game, adding a duplicate-free list of categories yields exactly that list |
| `VideoGameController.EditMissingGame` | src/Controller/VideoGameController.php:53-57 | editing a non-existent id answers 404 with the not-found message and leaves the store unchanged |
| `VideoGameController.EditFailureChangesNothing` | src/Controller/VideoGameController.php:53-86 | every edit that does not succeed leaves the store unchanged: nothing is flushed before all checks pass |
| `VideoGameController.EditSucceedsOnlyIfChecksPass` | src/Controller/VideoGameController.php:67-86 | a successful edit implies the game and the editor exist, every category id resolves and none repeats, and the edited game validates; only that game's row changed |
| `VideoGameController.EditValidationDecides` | src/Controller/VideoGameController.php:80-89 | once the game, title, description, editor and categories pass their lookups, the validator decides: a conforming edited game is stored and answered 200, any other is answered 400 with its violations and nothing is stored |
| `VideoGameController.EditIsPartialUpdate` | src/Controller/VideoGameController.php:61-79 | after a successful edit, an absent title or description keeps the stored one, the release date changes only for a non-empty value, the editor is the requested one, the cover is kept, and the old categories remain as a prefix with only requested ones added |
| `VideoGameController.EditRejectsUnresolvedCategories` | src/Controller/VideoGameController.php:73-76 | for a stored game that has a title and a description, with an existing editor, an unknown or repeated category id answers 404 with the categories message and changes nothing |
| `VideoGameController.EditRejectsUnknownEditor` | src/Controller/VideoGameController.php:67-70 | for a stored game that has a title and a description, an unknown editor id answers 404 with the edit's editor message and changes nothing |
| `VideoGameController.EditPreservesConsistency` | src/Controller/VideoGameController.php:43-91 | an edit keeps every stored game valid, its editor and categories resolvable and its categories duplicate-free |
| `VideoGameController.CreateOutcomeFacts` | src/Controller/VideoGameController.php:94-137 | on a store whose ids are all below the generator, a create succeeds only with title, description and a known editor given, all category ids distinct and known, and a valid game; the game then has the requested title, description, editor and categories, the given release date (the current time when absent) and no cover, and is stored under the next id, which was free, with nothing else changed; any other answer leaves the store unchanged |
| `VideoGameController.CreateValidationDecides` | src/Controller/VideoGameController.php:126-136 | once title, description, editor and categories pass their lookups, the validator decides: a conforming game is stored under the next id and answered 201, any other is answered 400 with its violations and nothing is stored |
| `VideoGameController.CreateRejectsUnknownEditor` | src/Controller/VideoGameController.php:105-113 | with a title and a description given, an unknown editor id answers 404 with the create's editor message and changes nothing |
| `VideoGameController.CreateRejectsUnresolvedCategories` | src/Controller/VideoGameController.php:116-120 | with a title, a description and an existing editor given, a repeated or unknown category id (an absent list counts as empty) answers 404 with the categories message and changes nothing |
| `VideoGameController.CreatePreservesConsistency` | src/Controller/VideoGameController.php:94-137 | a create keeps the store consistent |
| `VideoGameController.CreateWithoutCategoriesAsWritten` | src/Controller/VideoGameController.php:116-132 | a create with an empty or absent category list builds a game the validator as written accepts; the model answers 400 with the category message instead |
| `VideoGameController.DeleteOutcomeFacts` | src/Controller/VideoGameController.php:140-151 | deleting a missing id answers 404 and changes nothing; otherwise exactly that game is removed and nothing else changes |
| `VideoGameController.DeletePreservesConsistency` | src/Controller/VideoGameController.php:140-151 | a delete keeps the store consistent |
| `VideoGameController.Database.Find` | src/Controller/VideoGameController.php:53 | find returns null exactly for an id not stored, otherwise a fresh entity holding the stored row |
| `VideoGameController.Database.Flush` | src/Controller/VideoGameController.php:86 | flush writes the managed entity's row back under its id and changes nothing else |
| `VideoGameController.Database.PersistAndFlush` | src/Controller/VideoGameController.php:131-132 | persist then flush stores the new row under the next id, gives the entity that id and advances the generator |
| `VideoGameController.Database.RemoveAndFlush` | src/Controller/VideoGameController.php:147-148 | remove then flush deletes exactly that id |
| `VideoGameController.AddFoundCategories` | src/Controller/VideoGameController.php:77-79 | the foreach of addCategory calls leaves the entity's collection equal to the fold of append-unless-present over the found categories, all else unchanged |
| `VideoGameController.EditVideoGame` | src/Controller/VideoGameController.php:43-91 | the response and the new store are exactly those of the edit transition |
| `VideoGameController.CreateVideoGame` | src/Controller/VideoGameController.php:94-137 | the response and the new store are exactly those of the create transition |
| `VideoGameController.DeleteVideoGame` | src/Controller/VideoGameController.php:140-151 | the response and the new store are exactly those of the delete transition |
| `NewsletterService.NewsletterFacts` | src/Service/NewsletterService.php:19-27 | every newsletter has the sender no-reply@monsite.com, the same subject and template whatever the user or games, the user's address as its single recipient, and a context of exactly that user and that games list |
| `NewsletterService.SendStepFacts` | src/Service/NewsletterService.php:29-31 | one call makes exactly one send attempt; if it returns, exactly one message is appended, stamped with the call's time, and the clock then moves 10; if it throws, nothing is appended and no pause happens; the spacing of the log is kept |
| `NewsletterService.Mailer.Send` | src/Service/NewsletterService.php:29 | a send attempt is counted; it throws exactly on the failing attempt numbers; otherwise the email is appended to the log with the current time |
| `NewsletterService.Clock.Sleep` | src/Service/NewsletterService.php:31 | sleeping advances the clock by exactly the given seconds |
| `NewsletterService.NewsletterService.SendNewsletter` | src/Service/NewsletterService.php:17-32 | the mailer log, attempt count and clock after the call are those of one send step: send, then the pause only if the send returned |
| `SendNewsletterHandler.Completed` | src/Scheduler/Handler/SendNewsletterMessageHandler.php:30-32 | the number of subscribers reached is the number of attempts before the first failing one, or all of them |
| `SendNewsletterHandler.SendAllFacts` | src/Scheduler/Handler/SendNewsletterMessageHandler.php:30-32 | the loop sends to the first k subscribers, k being the attempts before the first failure; the i-th new message is the i-th subscriber's newsletter with the same games list, sent 10·i after the first; earlier log entries are kept; the loop completes exactly when no send threw |
| `SendNewsletterHandler.FailureIsFinal` | src/Scheduler/Handler/SendNewsletterMessageHandler.php:30-32 | once a send has thrown, the remaining subscribers change nothing: there is no per-recipient failure isolation |
| `SendNewsletterHandler.SendAllKeepsSpacing` | src/Scheduler/Handler/SendNewsletterMessageHandler.php:30-32 | consecutive accepted sends stay at least 10 clock units apart across the whole loop |
| `SendNewsletterHandler.DispatchFacts` | src/Scheduler/Handler/SendNewsletterMessageHandler.php:26-32 | with no subscriber or no upcoming game nothing is attempted; otherwise, when nothing throws, there is exactly one send per subscriber, the i-th to the i-th subscriber's address, all with the identical games list, 10 units apart |
| `SendNewsletterHandler.SendNewsletterMessageHandler.Invoke` | src/Scheduler/Handler/SendNewsletterMessageHandler.php:20-33 | the mailer log, attempt count and clock end exactly as the dispatch of the two query results specifies; the user and game repositories are unchanged |
| `SendNewsletterCommand.AnnounceAllMatchesSendAll` | src/Command/SendNewsletterCommand.php:45-48 | the command's loop sends exactly what the handler's loop sends, and writes one line per accepted send, the i-th naming the i-th subscriber's address |
| `SendNewsletterCommand.AnnounceFailureIsFinal` | src/Command/SendNewsletterCommand.php:45-48 | once a send has thrown, the command's loop writes and sends nothing more |
| `SendNewsletterCommand.CommandMatchesHandler` | src/Command/SendNewsletterCommand.php:45-47 | for the same inputs, the command leaves the mailer log, attempt count and clock exactly as the handler does, and throws exactly when the handler does |
| `SendNewsletterCommand.ExecuteOutcomeFacts` | src/Command/SendNewsletterCommand.php:35-52 | every returning path returns SUCCESS; with no subscriber only the no-subscriber warning is written, even with no games; with subscribers but no games only the no-games warning, and neither sends; otherwise the success message is written exactly when all subscribers were sent to, last, after one line per subscriber in order |
| `SendNewsletterCommand.SendNewsletterCommand.Execute` | src/Command/SendNewsletterCommand.php:28-53 | the mailer, clock, console output and exit are exactly those of the command's specification; the repositories are unchanged |

## Left out

- The schedule (`src/Scheduler/NewsletterSchedule.php`) is left out. Its cron rule `30 8 * * 1` and its cache-backed run state are evaluated inside Symfony Scheduler, which is not part of this model.
- The repository queries `findSubscribers` and `findGamesNextWeek` are left out. Their repository files are not part of this model. The model's repositories hold the query results as fixed sequences.
- Twig rendering of `emails/newsletter.html.twig` is left out. The email carries the template name and its context.
- The real mail transport is left out. Its failures are a fixed set of failing attempt numbers.
- The real `sleep` is left out. It is an integer clock.
- SymfonyStyle's formatting of warnings, text and success blocks is left out.
- The process exit code after an exception escapes `execute` is left out. Symfony's console application decides it.
- `SendNewsletterCommand.AnnounceAllMatchesSendAll` is weaker than the source on ordering. The mailer log and the console output are separate logs. The model states that a line is written only for an accepted send and in subscriber order. It does not state a single time-ordered trace of sends and lines.
- The JSON request body is an abstract record. Values of the wrong JSON type are not modelled, for example a numeric title or a scalar `categories`.
- Date parsing is left out. `new \DateTime(...)` keeps the text it was given. An unparsable date, which throws, is not modelled.
- Warnings about undefined array keys are taken as logged, as in production. The development-mode error handler would turn them into exceptions.
- The order of `findBy` results is the database's. The model uses first-request order.
- `getVideoGames` and `getVideoGame` are left out. They only serialize.
- Role checks (`IsGranted`), the `Location` header URL and JSON response bodies beyond the model's response values are left out.
- The entity's getters are left out. The model reads the fields directly.
- UserController, CategoryController, EditorController and the data fixtures are left out. They hold no logic of this core.
- `VideoGameController.EditOutcome`, `VideoGameController.CreateOutcome`, `VideoGameController.EditVideoGame`, `VideoGameController.CreateVideoGame` and `VideoGameController.Consistent` use the corrected validator, which requires a category, and not the one as written. Two inputs show the difference. A create with a valid title, description, date and editor and `"categories": []` answers 201 in the code and 400 in the model. An edit of a stored game that has no category, with an existing `"editor"` and `"categories": []`, answers 200 in the code and 400 in the model. `Consistent` requires every stored game to have a category, so it does not hold for a store the code as written has produced.
- Address parsing in `TemplatedEmail::to()` is left out. Symfony's Mime `Address` trims the string and throws on an address that is not RFC-compliant, before `mailer->send` is reached. The model sends to the address as stored and never fails there. An invalid address would end the loop just as a failing send attempt does: nothing is appended and the clock does not move. The model does not count that case as a send attempt.
- Per-recipient failure isolation, per-subscriber outcome records, cover-image embedding and at-most-once firing per scheduled slot are not modelled. The code does not implement them.

## Findings

| source | as written | input that shows it | evidently intended | confidence | as-written member | corrected member |
|---|---|---|---|---|---|---|
| src/Entity/VideoGame.php:45-48 | `Assert\NotBlank` on the categories collection never reports a violation, because PHP's `empty()` is false for every object, including an empty `ArrayCollection` | POST `/api/v1/video_games` with a valid title, description, release date and existing editor, and `"categories": []` (or no `categories` key): the game is stored with no category and 201 is returned | at least one category is required, as the constraint's message "Au moins une catégorie est requise" says | high; not executed | `VideoGameEntity.EmptyCategoriesPassAsWritten` | `VideoGameEntity.Violations` |
