/**
 * The console command app:send-newsletter: the same fetch and the same send
 * loop as the scheduled handler, with a warning for each reason to stop, one
 * line of output per subscriber sent to, a closing success message, and
 * Command::SUCCESS on every path that returns.
 */
module SendNewsletterCommand {
  import opened VideoGameEntity
  import opened NewsletterService
  import opened SendNewsletterHandler

  /** Command::SUCCESS. */
  const SUCCESS: int := 0

  const NO_SUBSCRIBERS := "Aucun utilisateur abonné."
  const NO_GAMES := "Aucun jeu à sortir dans les 7 prochains jours."
  const SENT_TO := "Newsletter envoyée à : "
  const ALL_SENT := "Toutes les newsletters ont été envoyées."

  /** What SymfonyStyle writes: a warning block, a line of text, a success block. */
  datatype Line = WarningBlock(text: string) | TextLine(text: string) | SuccessBlock(text: string)

  /** How execute ends: it returns an exit code, or an exception escapes it. */
  datatype Exit = Returned(code: int) | Threw

  /** Progress of the send loop: the outbox, the lines written, whether it is still running. */
  datatype Progress = Progress(outbox: Outbox, output: seq<Line>, ok: bool)

  /** The command's foreach: send to the user, then write the line that names them. */
  function AnnounceAll(o: Outbox, failing: set<nat>, users: seq<User>, games: seq<VideoGame>): Progress {
    if users == [] then Progress(o, [], true)
    else
      var prev := AnnounceAll(o, failing, users[..|users| - 1], games);
      if !prev.ok then prev
      else
        var u := users[|users| - 1];
        var step := SendStep(prev.outbox, failing, u, games);
        if !step.ok then Progress(step.outbox, prev.output, false)
        else Progress(step.outbox, prev.output + [TextLine(SENT_TO + u.email)], true)
  }

  /** The result of execute: the outbox, the lines written, and how it ended. */
  datatype Run = Run(outbox: Outbox, output: seq<Line>, exit: Exit)

  function ExecuteOutcome(o: Outbox, failing: set<nat>, subscribers: seq<User>, games: seq<VideoGame>): Run {
    if subscribers == [] then Run(o, [WarningBlock(NO_SUBSCRIBERS)], Returned(SUCCESS))
    else if games == [] then Run(o, [WarningBlock(NO_GAMES)], Returned(SUCCESS))
    else
      var p := AnnounceAll(o, failing, subscribers, games);
      if p.ok then Run(p.outbox, p.output + [SuccessBlock(ALL_SENT)], Returned(SUCCESS))
      else Run(p.outbox, p.output, Threw)
  }

  /**
   * The command's loop sends exactly what the handler's loop sends, and
   * writes one line per newsletter the mailer accepted, naming the i-th
   * subscriber on the i-th line; a subscriber whose send threw gets no line.
   */
  lemma {:induction false} AnnounceAllMatchesSendAll(o: Outbox, failing: set<nat>, users: seq<User>, games: seq<VideoGame>)
    ensures var p := AnnounceAll(o, failing, users, games);
      && p.outbox == SendAll(o, failing, users, games).outbox
      && p.ok == SendAll(o, failing, users, games).ok
      && |p.output| == Completed(o.attempts, failing, |users|)
      && forall i :: 0 <= i < |p.output| ==> p.output[i] == TextLine(SENT_TO + users[i].email)
  {
    if users != [] {
      var n := |users|;
      var q := users[..n - 1];
      AnnounceAllMatchesSendAll(o, failing, q, games);
      SendAllFacts(o, failing, q, games);
      SendAllFacts(o, failing, users, games);
      var p := AnnounceAll(o, failing, users, games);
      forall i | 0 <= i < |p.output| ensures p.output[i] == TextLine(SENT_TO + users[i].email) {
        if i < n - 1 {
          assert users[i] == q[i];
        }
      }
    }
  }

  /** For the same inputs, the command and the handler leave the mailer and the clock in the same state, and fail alike. */
  lemma CommandMatchesHandler(o: Outbox, failing: set<nat>, subscribers: seq<User>, games: seq<VideoGame>)
    ensures ExecuteOutcome(o, failing, subscribers, games).outbox == Dispatch(o, failing, subscribers, games).outbox
    ensures ExecuteOutcome(o, failing, subscribers, games).exit.Threw? <==> !Dispatch(o, failing, subscribers, games).ok
  {
    AnnounceAllMatchesSendAll(o, failing, subscribers, games);
  }

  /**
   * Every path that returns returns SUCCESS. With no subscriber, only the
   * no-subscriber warning is written, whatever the games; with subscribers
   * but no game, only the no-game warning; neither sends. Otherwise the
   * success message is written exactly when every subscriber was sent to, as
   * the last line, after one line per subscriber in order.
   */
  lemma ExecuteOutcomeFacts(o: Outbox, failing: set<nat>, subscribers: seq<User>, games: seq<VideoGame>)
    ensures var r := ExecuteOutcome(o, failing, subscribers, games);
      && (r.exit.Returned? ==> r.exit.code == SUCCESS)
      && (subscribers == [] ==> r.output == [WarningBlock(NO_SUBSCRIBERS)] && r.outbox == o)
      && (subscribers != [] && games == [] ==> r.output == [WarningBlock(NO_GAMES)] && r.outbox == o)
      && (subscribers != [] && games != [] ==>
            && (SuccessBlock(ALL_SENT) in r.output <==> r.exit.Returned?)
            && (r.exit.Returned? ==>
                  && |r.output| == |subscribers| + 1
                  && r.output[|subscribers|] == SuccessBlock(ALL_SENT)
                  && (forall i :: 0 <= i < |subscribers| ==> r.output[i] == TextLine(SENT_TO + subscribers[i].email))
                  && |r.outbox.sent| == |o.sent| + |subscribers|))
  {
    if subscribers != [] && games != [] {
      AnnounceAllMatchesSendAll(o, failing, subscribers, games);
      SendAllFacts(o, failing, subscribers, games);
      var p := AnnounceAll(o, failing, subscribers, games);
      assert SuccessBlock(ALL_SENT) !in p.output by {
        forall i | 0 <= i < |p.output| ensures p.output[i] != SuccessBlock(ALL_SENT) {
        }
      }
    }
  }

  /** The console output, as the lines SymfonyStyle writes. */
  class Output {
    var lines: seq<Line>

    constructor ()
      ensures lines == []
    {
      lines := [];
    }

    method Warning(text: string)
      modifies this
      ensures lines == old(lines) + [WarningBlock(text)]
    {
      lines := lines + [WarningBlock(text)];
    }

    method Text(text: string)
      modifies this
      ensures lines == old(lines) + [TextLine(text)]
    {
      lines := lines + [TextLine(text)];
    }

    method Success(text: string)
      modifies this
      ensures lines == old(lines) + [SuccessBlock(text)]
    {
      lines := lines + [SuccessBlock(text)];
    }
  }

  class SendNewsletterCommand {
    const userRepository: UserRepository
    const videoGameRepository: VideoGameRepository
    const newsletterService: NewsletterService

    ghost predicate Valid()
      reads this, newsletterService, newsletterService.mailer
    {
      newsletterService.Valid()
    }

    constructor (userRepository: UserRepository, videoGameRepository: VideoGameRepository,
                 newsletterService: NewsletterService)
      requires newsletterService.Valid()
      ensures this.userRepository == userRepository && this.videoGameRepository == videoGameRepository
      ensures this.newsletterService == newsletterService && Valid()
    {
      this.userRepository := userRepository;
      this.videoGameRepository := videoGameRepository;
      this.newsletterService := newsletterService;
    }

    /** execute, writing to io. */
    method Execute(io: Output) returns (exit: Exit)
      requires Valid()
      modifies newsletterService.mailer, newsletterService.clock, io
      ensures Valid() && unchanged(userRepository, videoGameRepository)
      ensures var r := ExecuteOutcome(old(newsletterService.State()), newsletterService.mailer.failing,
                                      userRepository.subscribers, videoGameRepository.gamesNextWeek);
        && newsletterService.State() == r.outbox
        && io.lines == old(io.lines) + r.output
        && exit == r.exit
    {
      var subscribers := userRepository.subscribers;
      var gamesNextWeek := videoGameRepository.gamesNextWeek;

      if subscribers == [] {
        io.Warning(NO_SUBSCRIBERS);
        return Returned(SUCCESS);
      }
      if gamesNextWeek == [] {
        io.Warning(NO_GAMES);
        return Returned(SUCCESS);
      }

      ghost var start := newsletterService.State();
      ghost var failing := newsletterService.mailer.failing;
      ghost var before := io.lines;
      var i := 0;
      while i < |subscribers|
        invariant 0 <= i <= |subscribers|
        invariant newsletterService.Valid()
        invariant var p := AnnounceAll(start, failing, subscribers[..i], gamesNextWeek);
          p.ok && newsletterService.State() == p.outbox && io.lines == before + p.output
      {
        var user := subscribers[i];
        var sentOk := newsletterService.SendNewsletter(user, gamesNextWeek);
        assert subscribers[..i + 1][..i] == subscribers[..i];
        if !sentOk {
          AnnounceFailureIsFinal(start, failing, subscribers, gamesNextWeek, i + 1);
          return Threw;
        }
        io.Text(SENT_TO + user.email);
        i := i + 1;
      }
      assert subscribers[..i] == subscribers;

      io.Success(ALL_SENT);
      exit := Returned(SUCCESS);
    }
  }

  /** Once a send has thrown, the command's loop is over. */
  lemma {:induction false} AnnounceFailureIsFinal(o: Outbox, failing: set<nat>, users: seq<User>, games: seq<VideoGame>, j: nat)
    requires j <= |users| && !AnnounceAll(o, failing, users[..j], games).ok
    ensures AnnounceAll(o, failing, users, games) == AnnounceAll(o, failing, users[..j], games)
  {
    if j < |users| {
      var p := users[..|users| - 1];
      assert p[..j] == users[..j];
      AnnounceFailureIsFinal(o, failing, p, games, j);
    } else {
      assert users[..j] == users;
    }
  }
}
