/**
 * NewsletterService::sendNewsletter: build one templated email for a
 * subscriber, hand it to the mailer, then sleep ten seconds.
 *
 * The mailer becomes a log of the messages it accepted, each stamped with the
 * clock reading at the moment it was sent; the transport's failures become a
 * fixed set of attempt numbers at which send throws; `sleep` becomes an
 * integer clock that only moves when the service sleeps.
 */
module NewsletterService {
  import opened VideoGameEntity

  const SENDER := "no-reply@monsite.com"
  const SUBJECT := "Nouvelle sortie de jeux vidéo cette semaine !"
  const TEMPLATE := "emails/newsletter.html.twig"

  /** Seconds slept after every send that returned. */
  const PAUSE: nat := 10

  /** A subscriber, as far as the newsletter uses one. */
  datatype User = User(id: nat, email: string)

  /** The variables the template is rendered with. */
  datatype Context = Context(user: User, games: seq<VideoGame>)

  datatype Email = Email(from: string, to: seq<string>, subject: string, htmlTemplate: string, context: Context)

  /** A message the mailer accepted, and the clock reading when it did. */
  datatype Delivery = Delivery(email: Email, at: int)

  /** The observable state: accepted messages in order, send attempts so far, the clock. */
  datatype Outbox = Outbox(sent: seq<Delivery>, attempts: nat, now: int)

  /** A new outbox, and whether the operation returned normally (false: an exception escaped). */
  datatype Step = Step(outbox: Outbox, ok: bool)

  /** The TemplatedEmail that sendNewsletter builds for one subscriber. */
  function Newsletter(user: User, games: seq<VideoGame>): Email {
    Email(SENDER, [user.email], SUBJECT, TEMPLATE, Context(user, games))
  }

  /**
   * Whoever the subscriber and whatever the games, the newsletter has the
   * same sender, subject and template, exactly one recipient (the
   * subscriber's address), and a context holding exactly that subscriber and
   * that list; so two newsletters are equal only for the same subscriber and
   * the same list.
   */
  lemma NewsletterFacts(u1: User, g1: seq<VideoGame>, u2: User, g2: seq<VideoGame>)
    ensures Newsletter(u1, g1).from == Newsletter(u2, g2).from == SENDER
    ensures Newsletter(u1, g1).subject == Newsletter(u2, g2).subject == SUBJECT
    ensures Newsletter(u1, g1).htmlTemplate == Newsletter(u2, g2).htmlTemplate == TEMPLATE
    ensures Newsletter(u1, g1).to == [u1.email]
    ensures Newsletter(u1, g1).context.user == u1 && Newsletter(u1, g1).context.games == g1
    ensures Newsletter(u1, g1) == Newsletter(u2, g2) <==> u1 == u2 && g1 == g2
  {
  }

  /** sendNewsletter on values: one send attempt, then the pause only if the send returned. */
  function SendStep(o: Outbox, failing: set<nat>, user: User, games: seq<VideoGame>): Step {
    if o.attempts in failing then Step(o.(attempts := o.attempts + 1), false)
    else Step(Outbox(o.sent + [Delivery(Newsletter(user, games), o.now)], o.attempts + 1, o.now + PAUSE), true)
  }

  /** Accepted messages are at least PAUSE apart, and the clock is at least PAUSE past the last one. */
  predicate Spaced(o: Outbox) {
    && (forall i :: 0 <= i < |o.sent| - 1 ==> o.sent[i].at + PAUSE <= o.sent[i + 1].at)
    && (|o.sent| > 0 ==> o.sent[|o.sent| - 1].at + PAUSE <= o.now)
  }

  /**
   * One call makes exactly one attempt; if it returns, exactly this
   * subscriber's newsletter was appended, stamped with the time of the call,
   * and the clock moved PAUSE on; if it throws, nothing was appended and the
   * clock did not move. Either way the spacing of the log is kept.
   */
  lemma SendStepFacts(o: Outbox, failing: set<nat>, user: User, games: seq<VideoGame>)
    ensures var r := SendStep(o, failing, user, games);
      && (r.ok <==> o.attempts !in failing)
      && r.outbox.attempts == o.attempts + 1
      && (r.ok ==> r.outbox.sent == o.sent + [Delivery(Newsletter(user, games), o.now)] && r.outbox.now == o.now + PAUSE)
      && (!r.ok ==> r.outbox.sent == o.sent && r.outbox.now == o.now)
      && (Spaced(o) ==> Spaced(r.outbox))
  {
  }

  /** The clock that `sleep` advances. */
  class Clock {
    var now: int

    constructor (start: int)
      ensures now == start
    {
      now := start;
    }

    method Sleep(seconds: nat)
      modifies this
      ensures now == old(now) + seconds
    {
      now := now + seconds;
    }
  }

  /** The mailer: the transport throws on the attempts numbered in `failing`. */
  class Mailer {
    const clock: Clock
    const failing: set<nat>
    var sent: seq<Delivery>
    var attempts: nat

    constructor (clock: Clock, failing: set<nat>)
      ensures this.clock == clock && this.failing == failing
      ensures sent == [] && attempts == 0
    {
      this.clock := clock;
      this.failing := failing;
      sent, attempts := [], 0;
    }

    /** MailerInterface::send; ok == false stands for the exception it throws. */
    method Send(email: Email) returns (ok: bool)
      modifies this
      ensures attempts == old(attempts) + 1
      ensures ok <==> old(attempts) !in failing
      ensures sent == if ok then old(sent) + [Delivery(email, clock.now)] else old(sent)
    {
      ok := attempts !in failing;
      if ok {
        sent := sent + [Delivery(email, clock.now)];
      }
      attempts := attempts + 1;
    }
  }

  class NewsletterService {
    const mailer: Mailer
    const clock: Clock

    ghost predicate Valid()
      reads this, mailer
    {
      mailer.clock == clock
    }

    function State(): Outbox
      reads this, mailer, clock
    {
      Outbox(mailer.sent, mailer.attempts, clock.now)
    }

    constructor (mailer: Mailer)
      ensures this.mailer == mailer && clock == mailer.clock && Valid()
    {
      this.mailer := mailer;
      this.clock := mailer.clock;
    }

    /** ok == false: the mailer's exception propagated, and the pause was not reached. */
    method SendNewsletter(user: User, games: seq<VideoGame>) returns (ok: bool)
      requires Valid()
      modifies mailer, clock
      ensures Valid()
      ensures Step(State(), ok) == SendStep(old(State()), mailer.failing, user, games)
    {
      var email := Newsletter(user, games);
      ok := mailer.Send(email);
      if !ok {
        return;
      }
      clock.Sleep(PAUSE);
    }
  }
}
