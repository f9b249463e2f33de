/**
 * The queued jobs of the crawler as values, their deduplication key
 * (`AbstractWikipediaJob::uniqueId` and the per-class overrides), the queue
 * of pending jobs that refuses a job whose key is already pending, and the
 * shape of `executeWithThrottle`.
 */
module Jobs {
  import opened Wrappers
  import opened PhpStrings
  import opened JsonText

  /** A job and the fields it declares. */
  datatype Task =
    | ProcessCategory(categoryTitle: string, continueToken: Option<string>)
    | FetchTemplateTransclusions(templateTitle: string, continueToken: Option<string>)
    | FetchGamesBatch(limit: int, apcontinue: Option<string>, continueToken: Option<string>)
    | ProcessGamePage(pageTitle: string)
    | ProcessCompanyPage(pageTitle: string)
    | ProcessPlatformPage(pageTitle: string)
    | ProcessEnginePage(pageTitle: string)
    | ProcessGenrePage(pageTitle: string)
    | ProcessModePage(pageTitle: string)
    | ProcessSeriesPage(pageTitle: string)

  /** The job class; the queue keys its uniqueness lock by class and unique id. */
  datatype Kind = Category | Template | GamesBatch | GamePage | CompanyPage | PlatformPage | EnginePage | GenrePage | ModePage | SeriesPage

  function KindOf(t: Task): Kind {
    match t
    case ProcessCategory(_, _) => Category
    case FetchTemplateTransclusions(_, _) => Template
    case FetchGamesBatch(_, _, _) => GamesBatch
    case ProcessGamePage(_) => GamePage
    case ProcessCompanyPage(_) => CompanyPage
    case ProcessPlatformPage(_) => PlatformPage
    case ProcessEnginePage(_) => EnginePage
    case ProcessGenrePage(_) => GenrePage
    case ProcessModePage(_) => ModePage
    case ProcessSeriesPage(_) => SeriesPage
  }

  const Namespace: string := "Artryazanov\\WikipediaGamesDb\\Jobs\\"

  /** `static::class` of a job. */
  function ClassName(k: Kind): string {
    Namespace + match k
      case Category => "ProcessCategoryJob"
      case Template => "FetchTemplateTransclusionsJob"
      case GamesBatch => "FetchGamesBatchJob"
      case GamePage => "ProcessGamePageJob"
      case CompanyPage => "ProcessCompanyPageJob"
      case PlatformPage => "ProcessPlatformPageJob"
      case EnginePage => "ProcessEnginePageJob"
      case GenrePage => "ProcessGenrePageJob"
      case ModePage => "ProcessModePageJob"
      case SeriesPage => "ProcessSeriesPageJob"
  }

  /**
   * The `FetchGamesBatchJob` constructor: the limit is at least 1, an empty
   * (or "0") token becomes null, and the token is mirrored into continueToken.
   */
  function NewGamesBatch(limit: int, apcontinue: Option<string>): (t: Task)
    ensures t.FetchGamesBatch? && t.limit >= 1 && (limit >= 1 ==> t.limit == limit)
    ensures t.continueToken == t.apcontinue
    ensures t.apcontinue == (if Truthy(apcontinue) then apcontinue else None)
  {
    FetchGamesBatch(if limit < 1 then 1 else limit, if Truthy(apcontinue) then apcontinue else None,
                    if Truthy(apcontinue) then apcontinue else None)
  }

  // ------------------------------------------------------------- unique id

  /** The identifying properties a job class may declare. */
  datatype Prop = PageTitle | TemplateTitle | CategoryTitle | ContinueToken

  function PropName(p: Prop): string {
    match p
    case PageTitle => "pageTitle"
    case TemplateTitle => "templateTitle"
    case CategoryTitle => "categoryTitle"
    case ContinueToken => "continueToken"
  }

  function Names(props: seq<Prop>): (names: seq<string>)
    ensures |names| == |props|
  {
    if props == [] then [] else [PropName(props[0])] + Names(props[1..])
  }

  /** The properties the base `uniqueId` looks for, in the order it serialises them. */
  const IdProperties: seq<Prop> := [PageTitle, TemplateTitle, CategoryTitle, ContinueToken]

  /** `property_exists`: whether the job class declares the property. */
  predicate Declares(t: Task, name: Prop) {
    match t
    case ProcessCategory(_, _) => name == CategoryTitle || name == ContinueToken
    case FetchTemplateTransclusions(_, _) => name == TemplateTitle || name == ContinueToken
    case FetchGamesBatch(_, _, _) => name == ContinueToken
    case _ => name == PageTitle
  }

  /** The value of a declared property; string properties are never null. */
  function Property(t: Task, name: Prop): Option<string>
    requires Declares(t, name)
  {
    match t
    case ProcessCategory(c, k) => if name == CategoryTitle then Some(c) else k
    case FetchTemplateTransclusions(c, k) => if name == TemplateTitle then Some(c) else k
    case FetchGamesBatch(_, _, k) => k
    case _ => Some(t.pageTitle)
  }

  /** The properties among names that the job declares, in that order, with their values. */
  function Payload(t: Task, names: seq<Prop>): (p: (seq<Prop>, seq<Option<string>>))
    ensures |p.0| == |p.1|
  {
    if names == [] then ([], [])
    else
      AddIfDeclared(t, names[0], Payload(t, names[1..]))
  }

  /** The base `uniqueId`: the JSON object of the declared identifying properties. */
  function BaseUniqueId(t: Task): string {
    var p := Payload(t, IdProperties);
    EncodeObject(Names(p.0), p.1)
  }

  /** Whether the class overrides `uniqueId` with class name and page title. */
  predicate OverridesUniqueId(t: Task) {
    t.ProcessPlatformPage? || t.ProcessEnginePage? || t.ProcessGenrePage? || t.ProcessSeriesPage?
  }

  function UniqueId(t: Task): string {
    if OverridesUniqueId(t) then ClassName(KindOf(t)) + ":" + t.pageTitle else BaseUniqueId(t)
  }

  /** The key of the uniqueness lock. */
  function DedupKey(t: Task): (Kind, string) {
    (KindOf(t), UniqueId(t))
  }

  /** The base `uniqueId`, computed as the source does: a loop over the property names building the payload. */
  method ComputeBaseUniqueId(t: Task) returns (id: string)
    ensures id == BaseUniqueId(t)
  {
    var keys: seq<Prop> := [];
    var values: seq<Option<string>> := [];
    for i := 0 to |IdProperties|
      invariant |keys| == |values|
      invariant (keys, values) == PayloadPrefix(t, IdProperties[..i])
    {
      assert IdProperties[..i + 1] == IdProperties[..i] + [IdProperties[i]];
      PayloadPrefixSnoc(t, IdProperties[..i], IdProperties[i]);
      if Declares(t, IdProperties[i]) {
        keys := keys + [IdProperties[i]];
        values := values + [Property(t, IdProperties[i])];
      }
    }
    assert IdProperties[..|IdProperties|] == IdProperties;
    PayloadPrefixIsPayload(t, IdProperties);
    id := EncodeObject(Names(keys), values);
  }

  /** The payload built from the front, as the loop builds it. */
  function PayloadPrefix(t: Task, names: seq<Prop>): (p: (seq<Prop>, seq<Option<string>>))
    ensures |p.0| == |p.1|
  {
    if names == [] then ([], [])
    else
      AppendIfDeclared(t, PayloadPrefix(t, names[..|names| - 1]), names[|names| - 1])
  }

  lemma PayloadPrefixSnoc(t: Task, names: seq<Prop>, name: Prop)
    ensures PayloadPrefix(t, names + [name]) == AppendIfDeclared(t, PayloadPrefix(t, names), name)
  {
    assert (names + [name])[..|names + [name]| - 1] == names;
  }

  lemma {:induction false} PayloadPrefixIsPayload(t: Task, names: seq<Prop>)
    ensures PayloadPrefix(t, names) == Payload(t, names)
    decreases |names|
  {
    if names != [] {
      var init := names[..|names| - 1];
      PayloadPrefixIsPayload(t, init);
      PayloadPrefixIsPayload(t, names[1..]);
      if init != [] {
        assert names[1..][..|names[1..]| - 1] == init[1..];
        PayloadPrefixIsPayload(t, init[1..]);
        PayloadPrefixIsPayload(t, names[1..][..|names[1..]| - 1]);
      } else {
        assert names == [names[0]];
      }
      PayloadSnoc(t, names);
    }
  }

  lemma {:induction false} PayloadSnoc(t: Task, names: seq<Prop>)
    requires names != []
    ensures Payload(t, names) == AppendIfDeclared(t, Payload(t, names[..|names| - 1]), names[|names| - 1])
    decreases |names|
  {
    var last := names[|names| - 1];
    if |names| > 1 {
      var tail := names[1..];
      var a := names[..|names| - 1];
      assert a[1..] == tail[..|tail| - 1];
      assert tail[|tail| - 1] == last;
      PayloadSnoc(t, tail);
      var q := Payload(t, tail[..|tail| - 1]);
      assert Payload(t, names) == AddIfDeclared(t, names[0], AppendIfDeclared(t, q, last));
      assert Payload(t, a) == AddIfDeclared(t, names[0], q);
      AddAppendCommute(t, names[0], q, last);
    } else {
      assert names[..|names| - 1] == [] && names[1..] == [];
      if Declares(t, last) {
        var v := Property(t, last);
        assert [last] + [] == [] + [last];
        assert [v] + [] == [] + [v];
      }
    }
  }

  /** One property appended to a payload, when the job declares it. */
  function AppendIfDeclared(t: Task, p: (seq<Prop>, seq<Option<string>>), last: Prop): (seq<Prop>, seq<Option<string>>) {
    if Declares(t, last) then (p.0 + [last], p.1 + [Property(t, last)]) else p
  }

  lemma SeqAssoc<T>(x: seq<T>, y: seq<T>, z: seq<T>)
    ensures x + (y + z) == (x + y) + z
  {
  }

  lemma AddAppendCommute(t: Task, first: Prop, q: (seq<Prop>, seq<Option<string>>), last: Prop)
    ensures AddIfDeclared(t, first, AppendIfDeclared(t, q, last)) == AppendIfDeclared(t, AddIfDeclared(t, first, q), last)
  {
    if Declares(t, first) && Declares(t, last) {
      SeqAssoc([first], q.0, [last]);
      SeqAssoc([Property(t, first)], q.1, [Property(t, last)]);
    }
  }

  /** The identifying field values: the serialised properties, or the page title for an override. */
  function Identity(t: Task): seq<Option<string>> {
    if OverridesUniqueId(t) then [Some(t.pageTitle)] else Payload(t, IdProperties).1
  }

  lemma OverrideInjective(t1: Task, t2: Task)
    requires OverridesUniqueId(t1) && KindOf(t1) == KindOf(t2)
    ensures UniqueId(t1) == UniqueId(t2) <==> t1.pageTitle == t2.pageTitle
  {
    var prefix := ClassName(KindOf(t1)) + ":";
    assert UniqueId(t1) == prefix + t1.pageTitle;
    assert UniqueId(t2) == prefix + t2.pageTitle;
    assert t1.pageTitle == (prefix + t1.pageTitle)[|prefix|..];
    assert t2.pageTitle == (prefix + t2.pageTitle)[|prefix|..];
  }

  /** The keys of the serialised properties depend only on the class. */
  lemma PayloadKeysOfKind(t1: Task, t2: Task, names: seq<Prop>)
    requires KindOf(t1) == KindOf(t2)
    ensures Payload(t1, names).0 == Payload(t2, names).0
  {
  }

  /**
   * Two jobs share a lock key exactly when they are of the same class and
   * agree on every identifying field: equal fields give equal ids, and a
   * different title or continuation token gives a different id.
   */
  lemma DedupKeyIff(t1: Task, t2: Task)
    ensures DedupKey(t1) == DedupKey(t2) <==> KindOf(t1) == KindOf(t2) && Identity(t1) == Identity(t2)
  {
    if KindOf(t1) == KindOf(t2) {
      SameKindIdIff(t1, t2);
    }
  }

  lemma SameKindIdIff(t1: Task, t2: Task)
    requires KindOf(t1) == KindOf(t2)
    ensures UniqueId(t1) == UniqueId(t2) <==> Identity(t1) == Identity(t2)
  {
    if OverridesUniqueId(t1) {
      OverrideInjective(t1, t2);
      assert Identity(t1) == [Some(t1.pageTitle)] && Identity(t2) == [Some(t2.pageTitle)];
    } else {
      BaseIdInjective(t1, t2);
    }
  }

  lemma BaseIdInjective(t1: Task, t2: Task)
    requires KindOf(t1) == KindOf(t2) && !OverridesUniqueId(t1)
    ensures BaseUniqueId(t1) == BaseUniqueId(t2) <==> Payload(t1, IdProperties).1 == Payload(t2, IdProperties).1
  {
    var p1 := Payload(t1, IdProperties);
    var p2 := Payload(t2, IdProperties);
    PayloadKeysOfKind(t1, t2, IdProperties);
    if BaseUniqueId(t1) == BaseUniqueId(t2) {
      EncodeObjectInjective(Names(p1.0), p1.1, p2.1);
    }
  }

  /** The serialised properties of each job class, in order. */
  lemma PayloadCases(t: Task)
    ensures t.ProcessCategory? ==> Payload(t, IdProperties) == ([CategoryTitle, ContinueToken], [Some(t.categoryTitle), t.continueToken])
    ensures t.FetchTemplateTransclusions? ==> Payload(t, IdProperties) == ([TemplateTitle, ContinueToken], [Some(t.templateTitle), t.continueToken])
    ensures t.FetchGamesBatch? ==> Payload(t, IdProperties) == ([ContinueToken], [t.continueToken])
    ensures !(t.ProcessCategory? || t.FetchTemplateTransclusions? || t.FetchGamesBatch?) ==> Payload(t, IdProperties) == ([PageTitle], [Some(t.pageTitle)])
  {
    PayloadOfIdProperties(t);
    var none: (seq<Prop>, seq<Option<string>>) := ([], []);
    match t
    case ProcessCategory(c, k) =>
      assert [ContinueToken] + none.0 == [ContinueToken] && [k] + none.1 == [k];
      assert [CategoryTitle] + [ContinueToken] == [CategoryTitle, ContinueToken];
      assert [Some(c)] + [k] == [Some(c), k];
    case FetchTemplateTransclusions(c, k) =>
      assert [ContinueToken] + none.0 == [ContinueToken] && [k] + none.1 == [k];
      assert [TemplateTitle] + [ContinueToken] == [TemplateTitle, ContinueToken];
      assert [Some(c)] + [k] == [Some(c), k];
    case FetchGamesBatch(_, _, k) =>
      assert [ContinueToken] + none.0 == [ContinueToken] && [k] + none.1 == [k];
    case _ =>
      assert [PageTitle] + none.0 == [PageTitle] && [Some(t.pageTitle)] + none.1 == [Some(t.pageTitle)];
  }

  /** One property in front of a payload, when the job declares it. */
  function AddIfDeclared(t: Task, p: Prop, rest: (seq<Prop>, seq<Option<string>>)): (seq<Prop>, seq<Option<string>>) {
    if Declares(t, p) then ([p] + rest.0, [Property(t, p)] + rest.1) else rest
  }

  lemma PayloadOfIdProperties(t: Task)
    ensures Payload(t, IdProperties)
      == AddIfDeclared(t, PageTitle, AddIfDeclared(t, TemplateTitle, AddIfDeclared(t, CategoryTitle, AddIfDeclared(t, ContinueToken, ([], [])))))
  {
    var s0 := IdProperties;
    var s1: seq<Prop> := [TemplateTitle, CategoryTitle, ContinueToken];
    var s2: seq<Prop> := [CategoryTitle, ContinueToken];
    var s3: seq<Prop> := [ContinueToken];
    assert s0[1..] == s1 && s1[1..] == s2 && s2[1..] == s3 && s3[1..] == [];
    assert Payload(t, s3) == AddIfDeclared(t, ContinueToken, Payload(t, []));
    assert Payload(t, s2) == AddIfDeclared(t, CategoryTitle, Payload(t, s3));
    assert Payload(t, s1) == AddIfDeclared(t, TemplateTitle, Payload(t, s2));
    assert Payload(t, s0) == AddIfDeclared(t, PageTitle, Payload(t, s1));
  }

  /** The same template or category with another continuation token is a different job, so both are queued. */
  lemma ContinuationDistinguishes(title: string, token1: Option<string>, token2: Option<string>)
    requires token1 != token2
    ensures DedupKey(ProcessCategory(title, token1)) != DedupKey(ProcessCategory(title, token2))
    ensures DedupKey(FetchTemplateTransclusions(title, token1)) != DedupKey(FetchTemplateTransclusions(title, token2))
  {
    PayloadCases(ProcessCategory(title, token1));
    PayloadCases(ProcessCategory(title, token2));
    PayloadCases(FetchTemplateTransclusions(title, token1));
    PayloadCases(FetchTemplateTransclusions(title, token2));
    DedupKeyIff(ProcessCategory(title, token1), ProcessCategory(title, token2));
    DedupKeyIff(FetchTemplateTransclusions(title, token1), FetchTemplateTransclusions(title, token2));
  }

  /** A games batch is identified by its continuation token alone; the limit is not part of its id. */
  lemma GamesBatchIdentity(t1: Task, t2: Task)
    requires t1.FetchGamesBatch? && t2.FetchGamesBatch?
    ensures DedupKey(t1) == DedupKey(t2) <==> t1.continueToken == t2.continueToken
    ensures UniqueId(t1) == EncodeObject(["continueToken"], [t1.continueToken])
  {
    GamesBatchPayload(t1);
    GamesBatchPayload(t2);
    DedupKeyIff(t1, t2);
    assert [t1.continueToken] == [t2.continueToken] <==> t1.continueToken == t2.continueToken;
  }

  /** The identity and the id of one games batch. */
  lemma GamesBatchPayload(t: Task)
    requires t.FetchGamesBatch?
    ensures Identity(t) == [t.continueToken]
    ensures UniqueId(t) == EncodeObject(["continueToken"], [t.continueToken])
  {
    PayloadCases(t);
    assert Names([ContinueToken]) == ["continueToken"];
  }

  /** A job class with an override is identified by its page title. */
  lemma OverrideIdentity(t1: Task, t2: Task)
    requires OverridesUniqueId(t1) && KindOf(t1) == KindOf(t2)
    ensures DedupKey(t1) == DedupKey(t2) <==> t1.pageTitle == t2.pageTitle
  {
    DedupKeyIff(t1, t2);
  }

  // ------------------------------------------------------- pending queue

  predicate KeyPending(pending: seq<Task>, t: Task) {
    exists i :: 0 <= i < |pending| && DedupKey(pending[i]) == DedupKey(t)
  }

  /** No two pending jobs share a lock key. */
  predicate DistinctKeys(pending: seq<Task>) {
    forall i, j :: 0 <= i < j < |pending| ==> DedupKey(pending[i]) != DedupKey(pending[j])
  }

  /** A dispatch: queued at the back unless a job with the same key is pending. */
  function Offer(pending: seq<Task>, t: Task): seq<Task> {
    if KeyPending(pending, t) then pending else pending + [t]
  }

  /** Dispatching jobs one after the other. */
  function OfferAll(pending: seq<Task>, tasks: seq<Task>): seq<Task>
    decreases |tasks|
  {
    if tasks == [] then pending else OfferAll(Offer(pending, tasks[0]), tasks[1..])
  }

  lemma OfferKeepsDistinct(pending: seq<Task>, t: Task)
    requires DistinctKeys(pending)
    ensures DistinctKeys(Offer(pending, t))
    ensures KeyPending(Offer(pending, t), t)
  {
    if !KeyPending(pending, t) {
      assert Offer(pending, t)[|pending|] == t;
    }
  }

  /** Dispatching any jobs never puts two jobs with one key in the queue. */
  lemma {:induction false} OfferAllKeepsDistinct(pending: seq<Task>, tasks: seq<Task>)
    requires DistinctKeys(pending)
    ensures DistinctKeys(OfferAll(pending, tasks))
    decreases |tasks|
  {
    if tasks != [] {
      OfferKeepsDistinct(pending, tasks[0]);
      OfferAllKeepsDistinct(Offer(pending, tasks[0]), tasks[1..]);
    }
  }

  /** A second dispatch of an equal job while the first is pending changes nothing. */
  lemma DuplicateDispatchDropped(pending: seq<Task>, t1: Task, t2: Task)
    requires DedupKey(t1) == DedupKey(t2)
    ensures Offer(Offer(pending, t1), t2) == Offer(pending, t1)
  {
    if !KeyPending(pending, t1) {
      assert Offer(pending, t1)[|pending|] == t1;
    }
  }

  /** The pending jobs of the queue connection; the uniqueness lock of a job is held while it is pending. */
  class PendingQueue {
    var pending: seq<Task>

    ghost predicate Valid()
      reads this
    {
      DistinctKeys(pending)
    }

    constructor()
      ensures pending == [] && Valid()
    {
      pending := [];
    }

    /** `dispatch`: refused when the lock of an equal job is held. */
    method Dispatch(t: Task) returns (queued: bool)
      requires Valid()
      modifies this
      ensures Valid()
      ensures queued <==> !KeyPending(old(pending), t)
      ensures pending == Offer(old(pending), t)
    {
      var key := DedupKey(t);
      var i := 0;
      while i < |pending|
        invariant 0 <= i <= |pending|
        invariant forall j :: 0 <= j < i ==> DedupKey(pending[j]) != key
      {
        if DedupKey(pending[i]) == key {
          return false;
        }
        i := i + 1;
      }
      pending := pending + [t];
      OfferKeepsDistinct(old(pending), t);
      queued := true;
    }

    /** Every job a handler dispatches, in order. */
    method DispatchAll(tasks: seq<Task>)
      requires Valid()
      modifies this
      ensures Valid()
      ensures pending == OfferAll(old(pending), tasks)
    {
      for i := 0 to |tasks|
        invariant Valid()
        invariant OfferAll(old(pending), tasks) == OfferAll(pending, tasks[i..])
      {
        assert tasks[i..][1..] == tasks[i + 1..];
        var _ := Dispatch(tasks[i]);
      }
      assert tasks[|tasks|..] == [];
    }

    /** A worker runs the oldest job; its lock is released when it finishes. */
    method Complete() returns (t: Option<Task>)
      requires Valid()
      modifies this
      ensures Valid()
      ensures old(pending) == [] ==> t == None && pending == []
      ensures old(pending) != [] ==> t == Some(old(pending)[0]) && pending == old(pending)[1..]
    {
      if pending == [] {
        return None;
      }
      t := Some(pending[0]);
      pending := pending[1..];
    }
  }

  // ------------------------------------------------------------ throttle

  datatype Effect = RunCallback | Sleep(microseconds: int)

  /** `executeWithThrottle`: the callback runs once, then the worker sleeps when the configured delay is positive. */
  function ThrottleEffects(delayMs: int): (effects: seq<Effect>)
    ensures |effects| >= 1 && effects[0] == RunCallback
    ensures forall i :: 1 <= i < |effects| ==> effects[i] != RunCallback
    ensures |effects| == 2 <==> delayMs > 0
    ensures delayMs > 0 ==> effects[1] == Sleep(delayMs * 1000)
  {
    [RunCallback] + (if delayMs > 0 then [Sleep(delayMs * 1000)] else [])
  }
}
