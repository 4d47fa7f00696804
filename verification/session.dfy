/**
  Runs of user and network events against the page. Besides the page's
  four fields, a session counts the requests that have been sent but not
  yet answered and logs every request sent, so that "no answer pending"
  and "loading" can be related. Nothing stops a second submission while
  one is in flight (the disabled button is only an affordance), so the
  model lets submissions and answers interleave freely.
 */
module Session {
  import opened Text
  import opened IngredientList
  import opened Home

  datatype Event<R> =
    | AddPressed                  // "Add another ingredient"
    | RemovePressed(index: int)   // the remove button next to entry `index`
    | Typed(index: int, value: string)  // entry `index` now reads `value`
    | SubmitPressed               // the form is submitted
    | Answered(outcome: Outcome<R>)     // one of the pending POSTs settles
    | ClearPressed                // "Clear"

  /** The page, the number of sent requests not yet answered, and every request sent so far. */
  datatype Session<R> = Session(page: Page<R>, pending: nat, sent: seq<Request>)

  /** A freshly rendered page: nothing sent, nothing pending. */
  function Start<R>(): (s: Session<R>)
    ensures s.pending == 0 && s.sent == [] && !s.page.loading
  {
    Session(InitialPage(), 0, [])
  }

  /** The form only edits an entry it shows, and an answer needs a request
      to answer. */
  predicate CanHappen<R>(s: Session<R>, e: Event<R>) {
    match e
    case Typed(i, _) => 0 <= i < |s.page.ingredients|
    case Answered(_) => s.pending > 0
    case _ => true
  }

  /** The session after one event. */
  function Step<R>(s: Session<R>, e: Event<R>): (t: Session<R>)
    requires CanHappen(s, e)
    ensures e.SubmitPressed? && BeginSubmit(s.page).request.Some? ==>
      t.pending == s.pending + 1 && t.sent == s.sent + [BeginSubmit(s.page).request.value]
    ensures e.Answered? ==> t.pending == s.pending - 1 && t.sent == s.sent && !t.page.loading
    ensures !e.Answered? && !(e.SubmitPressed? && BeginSubmit(s.page).request.Some?) ==>
      t.pending == s.pending && t.sent == s.sent
  {
    match e
    case AddPressed => s.(page := AddIngredient(s.page))
    case RemovePressed(i) => s.(page := RemoveIngredient(s.page, i))
    case Typed(i, v) => s.(page := UpdateIngredient(s.page, i, v))
    case ClearPressed => s.(page := ClearForm(s.page))
    case SubmitPressed =>
      var b := BeginSubmit(s.page);
      if b.request.Some? then Session(b.page, s.pending + 1, s.sent + [b.request.value])
      else s.(page := b.page)
    case Answered(o) => Session(Settle(s.page, o), s.pending - 1, s.sent)
  }

  /** Every event of `es` can happen at the point it arrives. */
  predicate CanRun<R>(s: Session<R>, es: seq<Event<R>>)
    decreases |es|
  {
    |es| == 0 || (CanHappen(s, es[0]) && CanRun(Step(s, es[0]), es[1..]))
  }

  /** The session after a run of events. */
  function Run<R>(s: Session<R>, es: seq<Event<R>>): Session<R>
    requires CanRun(s, es)
    decreases |es|
  {
    if |es| == 0 then s else Run(Step(s, es[0]), es[1..])
  }

  /** What every reachable session satisfies: the list is never empty, the
      page is loading only while some request is unanswered, and no more
      requests are unanswered than were sent. */
  predicate Healthy<R>(s: Session<R>) {
    && |s.page.ingredients| >= 1
    && (s.page.loading ==> s.pending > 0)
    && s.pending <= |s.sent|
  }

  /** A fresh page is healthy. */
  lemma StartHealthy<R>()
    ensures Healthy(Start<R>())
  {
  }

  /** Each event keeps a session healthy. */
  lemma StepHealthy<R>(s: Session<R>, e: Event<R>)
    requires Healthy(s) && CanHappen(s, e)
    ensures Healthy(Step(s, e))
  {
  }

  /** Any run keeps a session healthy. */
  lemma {:induction false} RunHealthy<R>(s: Session<R>, es: seq<Event<R>>)
    requires Healthy(s) && CanRun(s, es)
    ensures Healthy(Run(s, es))
    decreases |es|
  {
    if |es| > 0 {
      StepHealthy(s, es[0]);
      RunHealthy(Step(s, es[0]), es[1..]);
    }
  }

  /** Loading always ends: once every request sent from a fresh page has
      been answered, the page is not loading, and the ingredient list still
      has an entry. */
  lemma AllAnsweredNotLoading<R>(es: seq<Event<R>>)
    requires CanRun(Start<R>(), es)
    requires Run(Start<R>(), es).pending == 0
    ensures !Run(Start<R>(), es).page.loading
    ensures |Run(Start<R>(), es).page.ingredients| >= 1
  {
    StartHealthy<R>();
    RunHealthy(Start<R>(), es);
  }

  /** Events after the last answer that are not submissions leave the page
      not loading. */
  lemma {:induction false} QuietAfterAnswer<R>(s: Session<R>, es: seq<Event<R>>)
    requires !s.page.loading && CanRun(s, es)
    requires forall k :: 0 <= k < |es| ==> !es[k].SubmitPressed?
    ensures !Run(s, es).page.loading
    decreases |es|
  {
    if |es| > 0 {
      QuietAfterAnswer(Step(s, es[0]), es[1..]);
    }
  }

  /** With two submissions in flight, the first answer already ends loading
      though the second request is still unanswered. */
  lemma EarlyAnswerEndsLoading<R>(o: Outcome<R>)
    ensures var s := Start<R>().(page := Start<R>().page.(ingredients := ["eggs"]));
      && CanRun(s, [SubmitPressed, SubmitPressed, Answered(o)])
      && var t := Run(s, [SubmitPressed, SubmitPressed, Answered(o)]);
         t.pending == 1 && |t.sent| == 2 && !t.page.loading
  {
    var s := Start<R>().(page := Start<R>().page.(ingredients := ["eggs"]));
    assert !IsWhitespace("eggs"[0]);
    assert Usable(["eggs"]) == ["eggs"];
    var s1 := Step(s, SubmitPressed);
    assert s1.pending == 1 && s1.page.ingredients == ["eggs"];
    var s2 := Step(s1, SubmitPressed);
    assert s2.pending == 2 && |s2.sent| == 2;
    var s3 := Step(s2, Answered(o));
    var es := [SubmitPressed, SubmitPressed, Answered(o)];
    assert es[1..] == [SubmitPressed, Answered(o)] && es[1..][1..] == [Answered(o)];
    assert es[1..][1..][1..] == [];
    assert CanRun(s3, []) && Run(s3, []) == s3;
    assert CanRun(s2, [Answered(o)]) && Run(s2, [Answered(o)]) == s3;
    assert CanRun(s1, es[1..]) && Run(s1, es[1..]) == s3;
  }
}
