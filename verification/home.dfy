/**
  The state of the `Home` page component (app/page.tsx, lines 28-87) and
  its handlers as pure transitions. The four `useState` slots are kept as
  four independent fields, exactly as the component keeps them: a failed
  validation leaves an earlier recipe and the loading flag alone, and
  clearing the form leaves the loading flag alone, so combinations such as
  "recipe shown and error shown" are reachable.

  `handleSubmit` is split at its one `await`: `BeginSubmit` is everything
  up to the POST, `Settle` is everything after it. The recipe payload is
  the opaque type parameter `R`.
 */
module Home {
  import opened Optional
  import opened Text
  import opened IngredientList

  const ValidationMessage: string := "Please enter at least one ingredient"
  const FailureMessage: string := "Failed to generate recipe. Please try again."
  const PromptLead: string := "I have these ingredients: "
  const PromptTail: string := ". Can you suggest a recipe?"
  const Separator: string := ", "

  /** `ingredients`, `isLoading`, `recipe` and `error`. */
  datatype Page<R> = Page(ingredients: seq<string>, loading: bool, recipe: Option<R>, error: string)

  /** The body of the POST to `/recipe/analyze`. */
  datatype Request = Request(message: string, ingredients: seq<string>)

  /** What the awaited POST produced. */
  datatype Outcome<R> =
    | TransportFailure        // the promise rejected (for example, a network error)
    | ErrorField              // `response.data.error` is truthy, so the handler throws
    | FalsyBody               // `response.data` is falsy: no throw, and it is stored as the recipe
    | RecipeBody(recipe: R)   // any other body, stored as the recipe unexamined

  /** The page and the request (if any) after the synchronous part of `handleSubmit`. */
  datatype Begun<R> = Begun(page: Page<R>, request: Option<Request>)

  /** The state on first render. */
  function InitialPage<R>(): (p: Page<R>)
    ensures p.ingredients == [""]
    ensures !p.loading && p.recipe == None && p.error == ""
  {
    Page(Initial(), false, None, "")
  }

  /** `addIngredient`: only the list changes, and it gains one blank entry at the end. */
  function AddIngredient<R>(p: Page<R>): (q: Page<R>)
    ensures |q.ingredients| == |p.ingredients| + 1
    ensures q.ingredients[..|p.ingredients|] == p.ingredients
    ensures q.ingredients[|p.ingredients|] == ""
    ensures q.loading == p.loading && q.recipe == p.recipe && q.error == p.error
  {
    p.(ingredients := Add(p.ingredients))
  }

  /** `removeIngredient(index)`: only the list changes; it loses position
      `index` when it has more than one entry and `index` is a position. */
  function RemoveIngredient<R>(p: Page<R>, index: int): (q: Page<R>)
    ensures |p.ingredients| > 1 && 0 <= index < |p.ingredients| ==>
      q.ingredients == p.ingredients[..index] + p.ingredients[index + 1..]
    ensures |p.ingredients| <= 1 || !(0 <= index < |p.ingredients|) ==> q.ingredients == p.ingredients
    ensures q.loading == p.loading && q.recipe == p.recipe && q.error == p.error
  {
    p.(ingredients := Remove(p.ingredients, index))
  }

  /** `updateIngredient(index, value)`: only entry `index` of the list changes. */
  function UpdateIngredient<R>(p: Page<R>, index: int, value: string): (q: Page<R>)
    requires 0 <= index < |p.ingredients|
    ensures |q.ingredients| == |p.ingredients| && q.ingredients[index] == value
    ensures forall j :: 0 <= j < |p.ingredients| && j != index ==> q.ingredients[j] == p.ingredients[j]
    ensures q.loading == p.loading && q.recipe == p.recipe && q.error == p.error
  {
    p.(ingredients := Update(p.ingredients, index, value))
  }

  /** The natural-language part of the request. */
  function Prompt(valid: seq<string>): (m: string)
    ensures |PromptLead| + |PromptTail| <= |m|
    ensures m[..|PromptLead|] == PromptLead
    ensures m[|m| - |PromptTail|..] == PromptTail
  {
    PromptLead + Join(valid, Separator) + PromptTail
  }

  /** Reads the comma-joined ingredient text back out of a prompt. */
  function PromptBody(m: string): string
    requires |PromptLead| + |PromptTail| <= |m|
  {
    m[|PromptLead|..|m| - |PromptTail|]
  }

  /** The prompt embeds exactly the joined ingredient list between its fixed lead and tail. */
  lemma PromptBodyRoundTrip(valid: seq<string>)
    ensures PromptBody(Prompt(valid)) == Join(valid, Separator)
  {
    var m := Prompt(valid);
    assert m == PromptLead + Join(valid, Separator) + PromptTail;
    assert m[|PromptLead|..|m| - |PromptTail|] == Join(valid, Separator);
  }

  /** Every sent ingredient appears verbatim in the prompt, at its place in
      the ", "-separated list. */
  lemma {:induction false} PromptListsEveryIngredient(valid: seq<string>, k: nat)
    requires k < |valid|
    ensures var at := |PromptLead| + EntryOffset(valid, Separator, k);
      at + |valid[k]| <= |Prompt(valid)| && Prompt(valid)[at..at + |valid[k]|] == valid[k]
  {
    JoinEntryAt(valid, Separator, k);
    var j := Join(valid, Separator);
    var m := Prompt(valid);
    var o := EntryOffset(valid, Separator, k);
    assert m == PromptLead + j + PromptTail;
    assert m[|PromptLead| + o..|PromptLead| + o + |valid[k]|] == j[o..o + |valid[k]|];
  }

  /** The synchronous part of `handleSubmit` (lines 52-68). With no usable
      entry only the error changes and nothing is sent. Otherwise the page
      starts loading with error and recipe cleared, and exactly one request
      is built from the usable entries, in order. */
  function BeginSubmit<R>(p: Page<R>): (b: Begun<R>)
    ensures b.request.None? <==> Usable(p.ingredients) == []
    ensures b.request.None? ==>
      b.page.error == ValidationMessage && b.page.ingredients == p.ingredients &&
      b.page.loading == p.loading && b.page.recipe == p.recipe
    ensures b.request.Some? ==>
      && b.page.loading && b.page.error == "" && b.page.recipe == None
      && b.page.ingredients == p.ingredients
      && b.request.value.ingredients == Usable(p.ingredients)
      && b.request.value.message == Prompt(Usable(p.ingredients))
  {
    var valid := Usable(p.ingredients);
    if |valid| == 0 then
      Begun(p.(error := ValidationMessage), None)
    else
      Begun(p.(loading := true, error := "", recipe := None),
            Some(Request(Prompt(valid), valid)))
  }

  /** A submission is turned away, with nothing sent, exactly when every
      entry is blank. */
  lemma SubmitRejectsOnlyBlankLists<R>(p: Page<R>)
    ensures BeginSubmit(p).request.None? <==> forall j :: 0 <= j < |p.ingredients| ==> IsBlank(p.ingredients[j])
  {
    UsableEmptyIffAllBlank(p.ingredients);
  }

  /** The part of `handleSubmit` after the POST settles (lines 70-80).
      Loading ends whatever the outcome; a failure sets the generic message
      and leaves the recipe slot alone; a body without an error field
      becomes the recipe and leaves the error alone. */
  function Settle<R>(p: Page<R>, o: Outcome<R>): (q: Page<R>)
    ensures !q.loading
    ensures q.ingredients == p.ingredients
    ensures o.TransportFailure? || o.ErrorField? ==> q.error == FailureMessage && q.recipe == p.recipe
    ensures o.FalsyBody? ==> q.recipe == None && q.error == p.error
    ensures o.RecipeBody? ==> q.recipe == Some(o.recipe) && q.error == p.error
  {
    match o
    case TransportFailure => p.(error := FailureMessage, loading := false)
    case ErrorField => p.(error := FailureMessage, loading := false)
    case FalsyBody => p.(recipe := None, loading := false)
    case RecipeBody(r) => p.(recipe := Some(r), loading := false)
  }

  /** `clearForm`: back to the single empty entry with no recipe and no
      error; the loading flag is not touched. */
  function ClearForm<R>(p: Page<R>): (q: Page<R>)
    ensures q.ingredients == [""]
    ensures q.recipe == None && q.error == ""
    ensures q.loading == p.loading
  {
    p.(ingredients := Initial(), recipe := None, error := "")
  }

  /** A whole submission that got past validation, begun and settled with
      nothing in between: loading is over, a failure shows the generic
      message and no recipe, and a recipe body shows that recipe and no
      error. */
  lemma SubmitThenSettle<R>(p: Page<R>, o: Outcome<R>)
    requires exists j :: 0 <= j < |p.ingredients| && !IsBlank(p.ingredients[j])
    ensures BeginSubmit(p).request.Some?
    ensures var q := Settle(BeginSubmit(p).page, o);
      && !q.loading
      && q.ingredients == p.ingredients
      && (o.TransportFailure? || o.ErrorField? ==> q.error == FailureMessage && q.recipe == None)
      && (o.FalsyBody? ==> q.error == "" && q.recipe == None)
      && (o.RecipeBody? ==> q.error == "" && q.recipe == Some(o.recipe))
  {
    SubmitRejectsOnlyBlankLists(p);
  }

  /** The blank middle entry is filtered out and the other two keep their order. */
  lemma ExampleFilter()
    ensures Usable(["eggs", "", "flour"]) == ["eggs", "flour"]
  {
    assert !IsWhitespace("eggs"[0]) && !IsWhitespace("flour"[0]);
    var xs := ["eggs", "", "flour"];
    var t1, t2 := xs[1..], xs[1..][1..];
    assert t2 == ["flour"] && t2[1..] == [];
    assert Usable(t2) == ["flour"];
    assert Usable(t1) == Usable(t2);
  }

  /** The two example entries joined with the separator. */
  lemma ExampleJoin()
    ensures Join(["eggs", "flour"], Separator) == "eggs, flour"
  {
    assert ["eggs", "flour"][1..] == ["flour"];
  }

  /** The example from the form: the blank entry is dropped, the other two
      go out in order, and the prompt lists them as "eggs, flour". */
  lemma SubmitSkipsBlankEntry<R>(p: Page<R>)
    requires p.ingredients == ["eggs", "", "flour"]
    ensures BeginSubmit(p).request == Some(Request(Prompt(["eggs", "flour"]), ["eggs", "flour"]))
    ensures PromptBody(Prompt(["eggs", "flour"])) == "eggs, flour"
  {
    ExampleFilter();
    ExampleJoin();
    PromptBodyRoundTrip(["eggs", "flour"]);
  }
}
