/**
 * The scheduled message handler: fetch the subscribers and the games out
 * within a week, stop if either list is empty, otherwise send the newsletter
 * to each subscriber in turn. An exception from the mailer is not caught: it
 * ends the loop and the handler.
 */
module SendNewsletterHandler {
  import opened VideoGameEntity
  import opened NewsletterService

  /**
   * How many of n consecutive attempts, numbered from start, come before the
   * first one that throws: all n if none does.
   */
  function Completed(start: nat, failing: set<nat>, n: nat): (k: nat)
    ensures k <= n
    ensures forall a :: start <= a < start + k ==> a !in failing
    ensures k < n ==> start + k in failing
  {
    if n == 0 then 0
    else
      var k := Completed(start, failing, n - 1);
      if k == n - 1 && start + k !in failing then n else k
  }

  /** The foreach loop: sendNewsletter for each user in order, stopping at the first exception. */
  function SendAll(o: Outbox, failing: set<nat>, users: seq<User>, games: seq<VideoGame>): Step {
    if users == [] then Step(o, true)
    else
      var prev := SendAll(o, failing, users[..|users| - 1], games);
      if !prev.ok then prev
      else SendStep(prev.outbox, failing, users[|users| - 1], games)
  }

  /**
   * The loop sends to the first k users, k being the number of attempts
   * before the first failure: the i-th new message is the i-th user's
   * newsletter, carries the same games list as every other, and is sent
   * exactly i pauses after the first; earlier messages are kept; the loop
   * completes exactly when no attempt failed.
   */
  lemma {:induction false} SendAllFacts(o: Outbox, failing: set<nat>, users: seq<User>, games: seq<VideoGame>)
    ensures var r := SendAll(o, failing, users, games);
      var k := Completed(o.attempts, failing, |users|);
      && (r.ok <==> k == |users|)
      && |r.outbox.sent| == |o.sent| + k
      && r.outbox.sent[..|o.sent|] == o.sent
      && (forall i :: 0 <= i < k ==> r.outbox.sent[|o.sent| + i] == Delivery(Newsletter(users[i], games), o.now + PAUSE * i))
      && r.outbox.now == o.now + PAUSE * k
      && r.outbox.attempts == o.attempts + (if r.ok then |users| else k + 1)
  {
    if users != [] {
      var n := |users|;
      var p, u := users[..n - 1], users[n - 1];
      SendAllFacts(o, failing, p, games);
      var prev := SendAll(o, failing, p, games);
      var kp := Completed(o.attempts, failing, n - 1);
      var k := Completed(o.attempts, failing, n);
      var r := SendAll(o, failing, users, games);
      if !prev.ok {
        assert r == prev && k == kp;
        forall i | 0 <= i < k
          ensures r.outbox.sent[|o.sent| + i] == Delivery(Newsletter(users[i], games), o.now + PAUSE * i)
        {
          assert users[i] == p[i];
        }
      } else if o.attempts + (n - 1) in failing {
        assert r.outbox.sent == prev.outbox.sent && k == kp;
        forall i | 0 <= i < k
          ensures r.outbox.sent[|o.sent| + i] == Delivery(Newsletter(users[i], games), o.now + PAUSE * i)
        {
          assert users[i] == p[i];
        }
      } else {
        assert k == n && kp == n - 1;
        assert r.outbox.sent == prev.outbox.sent + [Delivery(Newsletter(u, games), prev.outbox.now)];
        forall i | 0 <= i < k
          ensures r.outbox.sent[|o.sent| + i] == Delivery(Newsletter(users[i], games), o.now + PAUSE * i)
        {
          if i < n - 1 {
            assert users[i] == p[i];
          }
        }
      }
    }
  }

  /** Once an attempt has failed, the rest of the list changes nothing: the exception ends the loop. */
  lemma {:induction false} FailureIsFinal(o: Outbox, failing: set<nat>, users: seq<User>, games: seq<VideoGame>, j: nat)
    requires j <= |users| && !SendAll(o, failing, users[..j], games).ok
    ensures SendAll(o, failing, users, games) == SendAll(o, failing, users[..j], games)
  {
    if j < |users| {
      var p := users[..|users| - 1];
      assert p[..j] == users[..j];
      FailureIsFinal(o, failing, p, games, j);
    } else {
      assert users[..j] == users;
    }
  }

  /** A log that starts spaced stays spaced through the whole loop. */
  lemma {:induction false} SendAllKeepsSpacing(o: Outbox, failing: set<nat>, users: seq<User>, games: seq<VideoGame>)
    requires Spaced(o)
    ensures Spaced(SendAll(o, failing, users, games).outbox)
  {
    if users != [] {
      var p := users[..|users| - 1];
      SendAllKeepsSpacing(o, failing, p, games);
      SendStepFacts(SendAll(o, failing, p, games).outbox, failing, users[|users| - 1], games);
    }
  }

  /** The handler: nothing is sent unless both lists are non-empty. */
  function Dispatch(o: Outbox, failing: set<nat>, subscribers: seq<User>, games: seq<VideoGame>): Step {
    if subscribers == [] || games == [] then Step(o, true)
    else SendAll(o, failing, subscribers, games)
  }

  /**
   * With no subscriber or no upcoming game, the handler returns without a
   * send attempt. Otherwise, when no send fails, it sends exactly one
   * newsletter per subscriber, the i-th to the i-th subscriber, all with the
   * same games list, each PAUSE after the previous one.
   */
  lemma DispatchFacts(o: Outbox, failing: set<nat>, subscribers: seq<User>, games: seq<VideoGame>)
    ensures subscribers == [] || games == [] ==> Dispatch(o, failing, subscribers, games) == Step(o, true)
    ensures var r := Dispatch(o, failing, subscribers, games);
      subscribers != [] && games != [] && r.ok ==>
        && |r.outbox.sent| == |o.sent| + |subscribers|
        && r.outbox.attempts == o.attempts + |subscribers|
        && (forall i :: 0 <= i < |subscribers| ==>
              && r.outbox.sent[|o.sent| + i].email.to == [subscribers[i].email]
              && r.outbox.sent[|o.sent| + i].email == Newsletter(subscribers[i], games)
              && r.outbox.sent[|o.sent| + i].at == o.now + PAUSE * i)
    ensures Spaced(o) ==> Spaced(Dispatch(o, failing, subscribers, games).outbox)
  {
    SendAllFacts(o, failing, subscribers, games);
    if Spaced(o) {
      SendAllKeepsSpacing(o, failing, subscribers, games);
    }
  }

  /** The message the schedule posts; it carries nothing. */
  datatype SendNewsletterMessage = SendNewsletterMessage

  /** UserRepository, reduced to the result of findSubscribers. */
  class UserRepository {
    var subscribers: seq<User>

    constructor (subscribers: seq<User>)
      ensures this.subscribers == subscribers
    {
      this.subscribers := subscribers;
    }
  }

  /** VideoGameRepository, reduced to the result of findGamesNextWeek. */
  class VideoGameRepository {
    var gamesNextWeek: seq<VideoGame>

    constructor (gamesNextWeek: seq<VideoGame>)
      ensures this.gamesNextWeek == gamesNextWeek
    {
      this.gamesNextWeek := gamesNextWeek;
    }
  }

  class SendNewsletterMessageHandler {
    const userRepository: UserRepository
    const videoGameRepository: VideoGameRepository
    const newsletterService: NewsletterService

    ghost predicate Valid()
      reads this, newsletterService, newsletterService.mailer
    {
      newsletterService.Valid()
    }

    constructor (userRepository: UserRepository, videoGameRepository: VideoGameRepository,
                 newsletterService: NewsletterService)
      requires newsletterService.Valid()
      ensures this.userRepository == userRepository && this.videoGameRepository == videoGameRepository
      ensures this.newsletterService == newsletterService && Valid()
    {
      this.userRepository := userRepository;
      this.videoGameRepository := videoGameRepository;
      this.newsletterService := newsletterService;
    }

    /** __invoke; ok == false: the mailer's exception propagated out of the handler. */
    method Invoke(message: SendNewsletterMessage) returns (ok: bool)
      requires Valid()
      modifies newsletterService.mailer, newsletterService.clock
      ensures Valid() && unchanged(userRepository, videoGameRepository)
      ensures Step(newsletterService.State(), ok)
              == Dispatch(old(newsletterService.State()), newsletterService.mailer.failing,
                          userRepository.subscribers, videoGameRepository.gamesNextWeek)
    {
      var subscribers := userRepository.subscribers;
      var gamesNextWeek := videoGameRepository.gamesNextWeek;
      if subscribers == [] || gamesNextWeek == [] {
        return true;
      }
      ghost var start := newsletterService.State();
      ghost var failing := newsletterService.mailer.failing;
      var i := 0;
      while i < |subscribers|
        invariant 0 <= i <= |subscribers|
        invariant newsletterService.Valid()
        invariant Step(newsletterService.State(), true) == SendAll(start, failing, subscribers[..i], gamesNextWeek)
      {
        var sentOk := newsletterService.SendNewsletter(subscribers[i], gamesNextWeek);
        assert subscribers[..i + 1][..i] == subscribers[..i];
        if !sentOk {
          FailureIsFinal(start, failing, subscribers, gamesNextWeek, i + 1);
          return false;
        }
        i := i + 1;
      }
      assert subscribers[..i] == subscribers;
      ok := true;
    }
  }
}
