/**
 * The three traversal jobs: each turns one page of gateway results into the
 * ordered list of tasks it dispatches. The gateway answer is an input.
 */
module Frontier {
  import opened Wrappers
  import opened PhpStrings
  import opened Jobs
  import opened MediaWikiClient

  /**
   * How a job run ends: normally, marked failed through `$this->fail`, or
   * with an exception escaping after some tasks were already dispatched.
   */
  datatype Outcome = Done(dispatched: seq<Task>) | Rejected(dispatched: seq<Task>) | Raised(dispatched: seq<Task>)

  /** What the loop body does with one member. */
  datatype Step = Skip | Emit(task: Task) | Abort

  /** The tasks a loop dispatched, and whether an exception cut it short. */
  datatype Emitted = Emitted(tasks: seq<Task>, aborted: bool)

  function Then(ts: seq<Task>, e: Emitted): Emitted {
    Emitted(ts + e.tasks, e.aborted)
  }

  /** The `foreach` over members: steps run in member order until one throws. */
  function Run<M>(ms: seq<M>, step: M -> Step): Emitted {
    if ms == [] then Emitted([], false)
    else match step(ms[0])
      case Abort => Emitted([], true)
      case Skip => Run(ms[1..], step)
      case Emit(t) => Then([t], Run(ms[1..], step))
  }

  /** `empty($v)` for a decoded JSON value. */
  predicate Empty(j: Json) {
    match j
    case JNull => true
    case JBool(b) => !b
    case JInt(i) => i == 0
    case JStr(s) => Falsy(s)
    case JList(items) => items == []
    case JObject(fields) => fields == []
  }

  /** A value passed to a `string` or `?string` constructor parameter in coercive mode; None is a TypeError. */
  function StringArg(j: Json): (r: Option<string>)
    ensures j.JStr? ==> r == Some(j.s)
    ensures r.None? <==> j.JNull? || IsArray(j)
  {
    if j.JNull? then None else StrCast(j)
  }

  /** A non-empty continuation value coerces to a truthy string unless it is an array. */
  lemma NonEmptyTokenIsTruthy(j: Json)
    requires !Empty(j) && StringArg(j).Some?
    ensures Truthy(StringArg(j))
  {
    match j
    case JInt(i) =>
      if i > 0 {
        assert NatToString(i)[0] != '0';
      } else {
        assert IntToString(i)[0] == '-';
      }
    case _ =>
  }

  // --------------------------------------------------------------- helpers

  lemma ThenEmit(ts: seq<Task>, t: Task, rest: Emitted)
    ensures Then(ts, Then([t], rest)) == Then(ts + [t], rest)
  {
    SeqAssoc(ts, [t], rest.tasks);
  }

  lemma ThenAbort(ts: seq<Task>)
    ensures Then(ts, Emitted([], true)) == Emitted(ts, true)
  {
    assert ts + [] == ts;
  }

  lemma ThenEmpty(ts: seq<Task>)
    ensures Then(ts, Emitted([], false)) == Emitted(ts, false)
  {
    assert ts + [] == ts;
  }

  /** One loop iteration: the rest of the run after member i is the run of the members after it. */
  lemma RunUnfold<M>(ms: seq<M>, i: nat, step: M -> Step)
    requires i < |ms|
    ensures Run(ms[i..], step) == match step(ms[i])
      case Abort => Emitted([], true)
      case Skip => Run(ms[i + 1..], step)
      case Emit(t) => Then([t], Run(ms[i + 1..], step))
  {
    assert ms[i..][1..] == ms[i + 1..];
  }

  // -------------------------------------------------- properties of a run

  /** Tasks of earlier members come before those of later ones. */
  lemma {:induction false} RunAppend<M>(a: seq<M>, b: seq<M>, step: M -> Step)
    requires !Run(a, step).aborted
    ensures Run(a + b, step) == Then(Run(a, step).tasks, Run(b, step))
  {
    if a == [] {
      assert a + b == b;
    } else {
      assert (a + b)[0] == a[0];
      assert (a + b)[1..] == a[1..] + b;
      match step(a[0])
      case Skip =>
        RunAppend(a[1..], b, step);
      case Emit(t) =>
        RunAppend(a[1..], b, step);
        SeqAssoc([t], Run(a[1..], step).tasks, Run(b, step).tasks);
    }
  }

  /** Without a throwing member, the run dispatches exactly the emitted tasks. */
  lemma {:induction false} RunMembers<M>(ms: seq<M>, step: M -> Step)
    requires forall i :: 0 <= i < |ms| ==> !step(ms[i]).Abort?
    ensures !Run(ms, step).aborted
    ensures forall t :: t in Run(ms, step).tasks <==> exists i :: 0 <= i < |ms| && step(ms[i]) == Emit(t)
  {
    if ms != [] {
      assert forall i :: 0 <= i < |ms| - 1 ==> ms[1..][i] == ms[i + 1];
      RunMembers(ms[1..], step);
      forall t | (exists i :: 0 <= i < |ms| && step(ms[i]) == Emit(t))
        ensures t in Run(ms, step).tasks
      {
        var i :| 0 <= i < |ms| && step(ms[i]) == Emit(t);
        if i > 0 {
          assert step(ms[1..][i - 1]) == Emit(t);
        }
      }
    }
  }

  /** A throwing member stops the loop: only the tasks of the members before it were dispatched. */
  lemma {:induction false} RunStopsAtAbort<M>(ms: seq<M>, k: nat, step: M -> Step)
    requires k < |ms| && step(ms[k]).Abort?
    requires forall i :: 0 <= i < k ==> !step(ms[i]).Abort?
    ensures Run(ms, step) == Emitted(Run(ms[..k], step).tasks, true)
  {
    assert ms == ms[..k] + ms[k..];
    RunMembers(ms[..k], step);
    RunAppend(ms[..k], ms[k..], step);
    RunUnfold(ms, k, step);
    ThenAbort(Run(ms[..k], step).tasks);
  }

  function CountWhere<M>(ms: seq<M>, p: M -> bool): (n: nat)
    ensures n <= |ms|
  {
    if ms == [] then 0 else (if p(ms[0]) then 1 else 0) + CountWhere(ms[1..], p)
  }

  // ------------------------------------------------------ ProcessCategoryJob

  /** One category member: '' is skipped, a subcategory recurses, anything else is a game page. */
  function CategoryStep(m: CategoryMember): Step {
    if m.title == JStr("") then Skip
    else match StringArg(m.title)
      case None => Abort
      case Some(title) => if m.kind == JStr("subcat") then Emit(ProcessCategory(title, None)) else Emit(ProcessGamePage(title))
  }

  /** `ProcessCategoryJob::doJob` given the category-members response. */
  function CategoryJob(categoryTitle: string, resp: Response): Outcome {
    match CategoryMembers(resp)
    case Threw => Raised([])
    case Returned(None) => Rejected([])
    case Returned(Some(listing)) =>
      var e := Run(listing.members, CategoryStep);
      if e.aborted then Raised(e.tasks)
      else if Empty(listing.cont) then Done(e.tasks)
      else match StringArg(listing.cont)
        case None => Raised(e.tasks)
        case Some(token) => Done(e.tasks + [ProcessCategory(categoryTitle, Some(token))])
  }

  method CategoryDoJob(categoryTitle: string, resp: Response) returns (o: Outcome)
    ensures o == CategoryJob(categoryTitle, resp)
  {
    var data := CategoryMembers(resp);
    if data.Threw? {
      return Raised([]);
    }
    if data.value.None? {
      return Rejected([]);
    }
    var members := data.value.value.members;
    var dispatched: seq<Task> := [];
    var i := 0;
    while i < |members|
      invariant 0 <= i <= |members|
      invariant Run(members, CategoryStep) == Then(dispatched, Run(members[i..], CategoryStep))
    {
      RunUnfold(members, i, CategoryStep);
      var member := members[i];
      if member.title != JStr("") {
        var title := StringArg(member.title);
        if title.None? {
          ThenAbort(dispatched);
          return Raised(dispatched);
        }
        var task := if member.kind == JStr("subcat") then ProcessCategory(title.value, None) else ProcessGamePage(title.value);
        ThenEmit(dispatched, task, Run(members[i + 1..], CategoryStep));
        dispatched := dispatched + [task];
      }
      i := i + 1;
    }
    ThenEmpty(dispatched);
    var cont := data.value.value.cont;
    if !Empty(cont) {
      var token := StringArg(cont);
      if token.None? {
        return Raised(dispatched);
      }
      dispatched := dispatched + [ProcessCategory(categoryTitle, token)];
    }
    return Done(dispatched);
  }

  /** A failed members request marks the job failed and dispatches nothing; a connection error escapes. */
  lemma CategoryFetchFailure(categoryTitle: string, resp: Response)
    ensures resp.Failed? ==> CategoryJob(categoryTitle, resp) == Rejected([])
    ensures resp.Thrown? ==> CategoryJob(categoryTitle, resp) == Raised([])
    ensures CategoryJob(categoryTitle, resp).Rejected? ==> resp.Failed?
  {
    var data := CategoryMembers(resp);
    if data.Returned? && data.value.Some? {
      var e := Run(data.value.value.members, CategoryStep);
      assert !CategoryJob(categoryTitle, resp).Rejected?;
    }
  }

  predicate TitledMember(m: CategoryMember) { m.title.JStr? }
  predicate NonEmptyTitle(m: CategoryMember) { m.title != JStr("") }

  /**
   * With string titles (what the API sends), the members dispatch one task
   * per non-empty title: a subcategory as a new category traversal without
   * token, anything else as a game page.
   */
  lemma {:induction false} CategoryMemberTasks(ms: seq<CategoryMember>)
    requires forall i :: 0 <= i < |ms| ==> TitledMember(ms[i])
    ensures !Run(ms, CategoryStep).aborted
    ensures |Run(ms, CategoryStep).tasks| == CountWhere(ms, NonEmptyTitle)
    ensures forall t :: t in Run(ms, CategoryStep).tasks <==>
      exists i :: 0 <= i < |ms| && ms[i].title.JStr? && ms[i].title != JStr("") &&
        t == (if ms[i].kind == JStr("subcat") then ProcessCategory(ms[i].title.s, None) else ProcessGamePage(ms[i].title.s))
  {
    RunMembers(ms, CategoryStep);
    if ms != [] {
      assert forall i :: 0 <= i < |ms| - 1 ==> ms[1..][i] == ms[i + 1];
      CategoryMemberTasks(ms[1..]);
    }
  }

  /** A truthy continuation value adds exactly one task, last: the same category with that token. */
  lemma CategoryContinuationLast(categoryTitle: string, resp: Response)
    requires resp.Ok? && CategoryJob(categoryTitle, resp).Done?
    ensures var listing := CategoryMembers(resp).value.value;
      var ts := CategoryJob(categoryTitle, resp).dispatched;
      var e := Run(listing.members, CategoryStep);
      if Empty(listing.cont) then ts == e.tasks
      else ts == e.tasks + [ProcessCategory(categoryTitle, StringArg(listing.cont))] && Truthy(StringArg(listing.cont))
  {
    var listing := CategoryMembers(resp).value.value;
    if !Empty(listing.cont) {
      NonEmptyTokenIsTruthy(listing.cont);
    }
  }

  // ------------------------------------------ FetchTemplateTransclusionsJob

  /** One transcluding page: '' and confirmed disambiguation pages are skipped; a failed check lets the page through. */
  function TemplateStep(probe: string -> Response): PageRef -> Step {
    (p: PageRef) =>
      if p.title == "" then Skip
      else if IsDisambiguation(probe(p.title)) == Returned(true) then Skip
      else Emit(ProcessGamePage(p.title))
  }

  /** `FetchTemplateTransclusionsJob::doJob` given the embedded-in response and the disambiguation answers. */
  function TemplateJob(templateTitle: string, resp: Response, probe: string -> Response): Outcome {
    match EmbeddedIn(resp)
    case Threw => Raised([])
    case Returned(None) => Rejected([])
    case Returned(Some(listing)) =>
      var e := Run(listing.members, TemplateStep(probe));
      if Empty(listing.cont) then Done(e.tasks)
      else match StringArg(listing.cont)
        case None => Raised(e.tasks)
        case Some(token) => Done(e.tasks + [FetchTemplateTransclusions(templateTitle, Some(token))])
  }

  method TemplateDoJob(templateTitle: string, resp: Response, probe: string -> Response) returns (o: Outcome)
    ensures o == TemplateJob(templateTitle, resp, probe)
  {
    var data := EmbeddedIn(resp);
    if data.Threw? {
      return Raised([]);
    }
    if data.value.None? {
      return Rejected([]);
    }
    var members := data.value.value.members;
    ghost var step := TemplateStep(probe);
    var dispatched: seq<Task> := [];
    var count := 0;
    var i := 0;
    while i < |members|
      invariant 0 <= i <= |members|
      invariant Run(members, step) == Then(dispatched, Run(members[i..], step))
      invariant count == |dispatched|
    {
      RunUnfold(members, i, step);
      var title := members[i].title;
      if title != "" {
        var isDisambiguation := IsDisambiguation(probe(title));
        if isDisambiguation != Returned(true) {
          ThenEmit(dispatched, ProcessGamePage(title), Run(members[i + 1..], step));
          dispatched := dispatched + [ProcessGamePage(title)];
          count := count + 1;
        }
      }
      i := i + 1;
    }
    ThenEmpty(dispatched);
    var cont := data.value.value.cont;
    if !Empty(cont) {
      var token := StringArg(cont);
      if token.None? {
        return Raised(dispatched);
      }
      dispatched := dispatched + [FetchTemplateTransclusions(templateTitle, token)];
    }
    return Done(dispatched);
  }

  lemma TemplateFetchFailure(templateTitle: string, resp: Response, probe: string -> Response)
    ensures resp.Failed? ==> TemplateJob(templateTitle, resp, probe) == Rejected([])
    ensures resp.Thrown? ==> TemplateJob(templateTitle, resp, probe) == Raised([])
  {
  }

  /**
   * Members only ever give game pages: a title is dispatched exactly when it
   * is non-empty and the disambiguation check did not answer true, so a
   * check that throws or fails lets the page through.
   */
  lemma TemplateMemberTasks(ms: seq<PageRef>, probe: string -> Response)
    ensures !Run(ms, TemplateStep(probe)).aborted
    ensures forall t :: t in Run(ms, TemplateStep(probe)).tasks ==> t.ProcessGamePage?
    ensures forall s :: ProcessGamePage(s) in Run(ms, TemplateStep(probe)).tasks <==>
      s != "" && IsDisambiguation(probe(s)) != Returned(true) && exists i :: 0 <= i < |ms| && ms[i].title == s
  {
    var step := TemplateStep(probe);
    RunMembers(ms, step);
    forall s | s != "" && IsDisambiguation(probe(s)) != Returned(true) && (exists i :: 0 <= i < |ms| && ms[i].title == s)
      ensures ProcessGamePage(s) in Run(ms, step).tasks
    {
      var i :| 0 <= i < |ms| && ms[i].title == s;
      assert step(ms[i]) == Emit(ProcessGamePage(s));
    }
  }

  /** Fail-open: a page whose disambiguation check throws is still dispatched. */
  lemma TemplateFailOpen(ms: seq<PageRef>, probe: string -> Response, i: nat)
    requires i < |ms| && ms[i].title != "" && probe(ms[i].title).Thrown?
    ensures ProcessGamePage(ms[i].title) in Run(ms, TemplateStep(probe)).tasks
  {
    TemplateMemberTasks(ms, probe);
  }

  /** The continuation task, when present, is last and re-reads the same template. */
  lemma TemplateContinuationLast(templateTitle: string, resp: Response, probe: string -> Response)
    requires resp.Ok? && TemplateJob(templateTitle, resp, probe).Done?
    ensures var listing := EmbeddedIn(resp).value.value;
      var ts := TemplateJob(templateTitle, resp, probe).dispatched;
      var e := Run(listing.members, TemplateStep(probe));
      if Empty(listing.cont) then ts == e.tasks
      else ts == e.tasks + [FetchTemplateTransclusions(templateTitle, StringArg(listing.cont))] && Truthy(StringArg(listing.cont))
  {
    var listing := EmbeddedIn(resp).value.value;
    TemplateMemberTasks(listing.members, probe);
    if !Empty(listing.cont) {
      NonEmptyTokenIsTruthy(listing.cont);
    }
  }

  // ----------------------------------------------------- FetchGamesBatchJob

  /** One listed page: a falsy title ('' or "0") is skipped. */
  function BatchStep(p: PageRef): Step {
    if Falsy(p.title) then Skip else Emit(ProcessGamePage(p.title))
  }

  /** `FetchGamesBatchJob::handle` for a batch task, given the allpages response. */
  function BatchJob(limit: int, resp: Response): Outcome {
    match AllPages(resp)
    case Threw => Raised([])
    case Returned(None) => Done([])
    case Returned(Some(listing)) =>
      if listing.members == [] then Done([])
      else
        var e := Run(listing.members, BatchStep);
        if Empty(listing.cont) then Done(e.tasks)
        else match StringArg(listing.cont)
          case None => Raised(e.tasks)
          case Some(token) => Done(e.tasks + [NewGamesBatch(limit, Some(token))])
  }

  method BatchHandle(batch: Task, resp: Response) returns (o: Outcome)
    requires batch.FetchGamesBatch?
    ensures o == BatchJob(batch.limit, resp)
  {
    var result := AllPages(resp);
    if result.Threw? {
      return Raised([]);
    }
    if result.value.None? {
      return Done([]);
    }
    var pages := result.value.value.members;
    var nextToken := result.value.value.cont;
    if pages == [] {
      return Done([]);
    }
    var dispatched: seq<Task> := [];
    var i := 0;
    while i < |pages|
      invariant 0 <= i <= |pages|
      invariant Run(pages, BatchStep) == Then(dispatched, Run(pages[i..], BatchStep))
    {
      RunUnfold(pages, i, BatchStep);
      var title := pages[i].title;
      if !Falsy(title) {
        ThenEmit(dispatched, ProcessGamePage(title), Run(pages[i + 1..], BatchStep));
        dispatched := dispatched + [ProcessGamePage(title)];
      }
      i := i + 1;
    }
    ThenEmpty(dispatched);
    if !Empty(nextToken) {
      var token := StringArg(nextToken);
      if token.None? {
        return Raised(dispatched);
      }
      dispatched := dispatched + [NewGamesBatch(batch.limit, token)];
    }
    return Done(dispatched);
  }

  /** A failed request or an API error ends the batch quietly, without failing and without tasks. */
  lemma BatchFetchFailure(limit: int, resp: Response)
    ensures resp.Failed? ==> BatchJob(limit, resp) == Done([])
    ensures resp.Ok? && Present(resp.body, "error").Some? ==> BatchJob(limit, resp) == Done([]) || BatchJob(limit, resp) == Raised([])
    ensures !BatchJob(limit, resp).Rejected?
  {
  }

  /** An empty page list dispatches nothing, not even a continuation. */
  lemma BatchEmptyPagesStop(limit: int, resp: Response)
    requires AllPages(resp).Returned? && AllPages(resp).value.Some? && AllPages(resp).value.value.members == []
    ensures BatchJob(limit, resp) == Done([])
  {
  }

  /** Each page with a truthy title is dispatched as a game page, and nothing else is. */
  lemma BatchMemberTasks(ps: seq<PageRef>)
    ensures !Run(ps, BatchStep).aborted
    ensures forall t :: t in Run(ps, BatchStep).tasks ==> t.ProcessGamePage? && !Falsy(t.pageTitle)
    ensures forall s :: ProcessGamePage(s) in Run(ps, BatchStep).tasks <==> !Falsy(s) && exists i :: 0 <= i < |ps| && ps[i].title == s
  {
    RunMembers(ps, BatchStep);
    forall s | !Falsy(s) && (exists i :: 0 <= i < |ps| && ps[i].title == s)
      ensures ProcessGamePage(s) in Run(ps, BatchStep).tasks
    {
      var i :| 0 <= i < |ps| && ps[i].title == s;
      assert BatchStep(ps[i]) == Emit(ProcessGamePage(s));
    }
  }

  /**
   * A truthy next token chains one batch, last, with the same limit and that
   * token; its request then carries the token as `apcontinue`.
   */
  lemma BatchChainsNext(batch: Task, resp: Response)
    requires batch.FetchGamesBatch? && batch.limit >= 1
    requires BatchJob(batch.limit, resp).Done? && BatchJob(batch.limit, resp).dispatched != []
    requires AllPages(resp).Returned? && AllPages(resp).value.Some? && !Empty(AllPages(resp).value.value.cont)
    ensures var ts := BatchJob(batch.limit, resp).dispatched;
      var next := ts[|ts| - 1];
      var token := StringArg(AllPages(resp).value.value.cont);
      next.FetchGamesBatch? && next.limit == batch.limit && token.Some? && next.apcontinue == token &&
      "apcontinue" in AllPagesParams(next.limit, next.apcontinue) &&
      AllPagesParams(next.limit, next.apcontinue)["apcontinue"] == token.value
  {
    NonEmptyTokenIsTruthy(AllPages(resp).value.value.cont);
  }
}
