/** Texts at which the parser departs from the standard, or a comment from a space. */
module JsonInstances {
  import opened JsonTable
  import opened JsonMachine
  import opened JsonInvariant
  import opened JsonText
  import opened JsonSteps
  import opened JsonLexemes
  import opened JsonCompleteness
  import opened JsonComments
  import opened Optional

  /** The parser after the bracket of an array. */
  function Opened(): Machine {
    Start().(state := AR, stack := [MODE_DONE, MODE_ARRAY], events := [ArrayBegin])
  }

  lemma Opens(cfg: Config)
    requires cfg.depth >= 1
    ensures Run(cfg, Start(), [91]) == Ok(Opened())
  {
    hide Step;
    StepBegin(cfg, Start(), true);
    RunOne(cfg, Start(), 91);
  }

  lemma NumberInArray(cfg: Config, n: Number, post: seq<int>)
    requires cfg.depth >= 1 && NumberOk(n) && AllBlank(post)
    ensures Accepts(cfg, [91] + NumberText(n) + post + [93])
  {
    hide Step, Run, Accepts, ItemEvents, NumberOk, NumberText;
    var x := Item([], Num(n), post);
    var items := OneItem(x);
    assert ValueText(x.v) == NumberText(n) && ItemOk(x);
    assert ItemsText(items) == ItemText(x) == [] + NumberText(n) + post;
    assert ItemsOk(items) && Depth(x.v) == 0 && ItemsDepth(items) == 0;
    var it := Item([], Arr(items), []);
    assert ValueOk(it.v) && Depth(it.v) == 1 && ValueText(it.v) == [91] + ItemsText(items) + [93];
    GrammarIsAccepted(cfg, it);
    assert ItemText(it) == [91] + NumberText(n) + post + [93];
  }

  lemma NumberBeginsArray(cfg: Config, n: Number)
    requires cfg.depth >= 1 && NumberOk(n)
    ensures Run(cfg, Start(), [91] + NumberText(n)) == Ok(InNumber(Opened(), n))
  {
    hide Step;
    Opens(cfg);
    FeedNumber(cfg, Opened(), n);
    RunThen(cfg, Start(), [91], Opened(), NumberText(n));
  }

  /** After the number in the array nothing comes of a text that goes on with a refused
      character. */
  lemma RefusedAfterNumber(cfg: Config, n: Number, c: int, rest: seq<int>)
    requires cfg.depth >= 1 && NumberOk(n) && Step(cfg, InNumber(Opened(), n), c).Fail?
    ensures !Accepts(cfg, [91] + NumberText(n) + [c] + rest)
  {
    hide Step;
    var m := InNumber(Opened(), n);
    NumberBeginsArray(cfg, n);
    RunAppend(cfg, Start(), [91] + NumberText(n), [c] + rest);
    assert [91] + NumberText(n) + [c] + rest == [91] + NumberText(n) + ([c] + rest);
    assert ([c] + rest)[0] == c;
  }

  const ONE_POINT := Number(false, [49], Some([]), None)
  const ZERO_POINT_EXPONENT := Number(false, [48], Some([]), Some(Exponent(101, [], [49])))
  const ZERO := Number(false, [48], None, None)
  const ONE_EXPONENT := Number(false, [49], None, Some(Exponent(101, [], [53])))

  /** [1.] and [0.e1] are accepted and [0e1] is refused, unlike section 2.4 of RFC 4627. */
  lemma NumberDepartures(cfg: Config)
    requires cfg.depth >= 1
    ensures Accepts(cfg, [91, 49, 46, 93]) && Accepts(cfg, [91, 48, 46, 101, 49, 93])
    ensures !Accepts(cfg, [91, 48, 101, 49, 93])
  {
    hide Step, Accepts;
    NumberInArray(cfg, ONE_POINT, []);
    NumberInArray(cfg, ZERO_POINT_EXPONENT, []);
    assert [91] + NumberText(ONE_POINT) + [] + [93] == [91, 49, 46, 93];
    assert [91] + NumberText(ZERO_POINT_EXPONENT) + [] + [93] == [91, 48, 46, 101, 49, 93];
    NumberStep(cfg, Opened(), ZERO, 101);
    RefusedAfterNumber(cfg, ZERO, 101, [49, 93]);
    assert [91] + NumberText(ZERO) + [101] + [49, 93] == [91, 48, 101, 49, 93];
  }

  /** In an array, a number that ends with its exponent or with its point. */
  lemma CommentRefused(cfg: Config, n: Number, rest: seq<int>)
    requires cfg.depth >= 1 && NumberOk(n) && NumberRefusesComment(NumberState(n))
    ensures !Accepts(cfg, [91] + NumberText(n) + [47] + rest)
  {
    hide Step, Accepts;
    NumberBeginsArray(cfg, n);
    StartLinked(cfg);
    RunKeepsLink(cfg, Start(), [91] + NumberText(n));
    SlashRefused(cfg, InNumber(Opened(), n));
    RefusedAfterNumber(cfg, n, 47, rest);
  }

  /** With comments on or off [1e5 ] and [1. ] are accepted, and never with a comment in place of
      the space. */
  lemma CommentAfterNumber(cfg: Config)
    requires cfg.depth >= 1
    ensures Accepts(cfg, [91, 49, 101, 53, 32, 93]) && !Accepts(cfg, [91, 49, 101, 53, 47, 42, 42, 47, 93])
    ensures Accepts(cfg, [91, 49, 46, 32, 93]) && !Accepts(cfg, [91, 49, 46, 47, 42, 42, 47, 93])
  {
    hide Step, Accepts;
    NumberInArray(cfg, ONE_EXPONENT, [32]);
    NumberInArray(cfg, ONE_POINT, [32]);
    assert [91] + NumberText(ONE_EXPONENT) + [32] + [93] == [91, 49, 101, 53, 32, 93];
    assert [91] + NumberText(ONE_POINT) + [32] + [93] == [91, 49, 46, 32, 93];
    CommentRefused(cfg, ONE_EXPONENT, [42, 42, 47, 93]);
    CommentRefused(cfg, ONE_POINT, [42, 42, 47, 93]);
    assert [91] + NumberText(ONE_EXPONENT) + [47] + [42, 42, 47, 93] == [91, 49, 101, 53, 47, 42, 42, 47, 93];
    assert [91] + NumberText(ONE_POINT) + [47] + [42, 42, 47, 93] == [91, 49, 46, 47, 42, 42, 47, 93];
  }

  /** The array after true, with a comment in place of the last letter. */
  function AfterTru(): Machine { Opened().(state := OK, before := OK, events := [ArrayBegin, TrueValue]) }

  lemma ReportsTrue(cfg: Config)
    requires cfg.depth >= 1 && cfg.comments
    ensures Run(cfg, InWord(Opened(), True, 3), Comment([])) == Ok(AfterTru())
  {
    hide Step, Run;
    CommentCompletesWord(cfg, InWord(Opened(), True, 3), []);
    assert [ArrayBegin] + [TrueValue] == [ArrayBegin, TrueValue];
  }

  /** [tru and a comment and ] is the array of true. */
  lemma CommentInTrue(cfg: Config)
    requires cfg.depth >= 1 && cfg.comments
    ensures var s := [91, 116, 114, 117, 47, 42, 42, 47, 93];
            Accepts(cfg, s) && Run(cfg, Start(), s).m.events == [ArrayBegin, TrueValue, ArrayEnd]
  {
    hide Step, Run, PendingEvents;
    var m, x := InWord(Opened(), True, 3), AfterTru();
    var s := [91] + ValueText(True)[..3] + Comment([]);
    Opens(cfg);
    FeedWord(cfg, Opened(), True, 3);
    RunThen(cfg, Start(), [91], Opened(), ValueText(True)[..3]);
    ReportsTrue(cfg);
    RunThen(cfg, Start(), [91] + ValueText(True)[..3], m, Comment([]));
    StepEnd(cfg, x, true);
    RunThenStep(cfg, Start(), s, x, 93);
    NothingPending(x);
    assert s + [93] == [91, 116, 114, 117, 47, 42, 42, 47, 93];
  }

  lemma NothingPending(m: Machine)
    requires m.ty.T_NONE?
    ensures Reported(m).events == m.events
  {
    assert m.events + [] == m.events;
  }
}
