/**
 * Response shaping and the parse-bundle memo of the MediaWiki gateway.
 * HTTP is not modelled: the answer the API would give to a request is an
 * input value, and `json()` yields the decoded body as a `Json` value
 * shaped as PHP's `json_decode(..., true)` sees it.
 */
module MediaWikiClient {
  import opened Wrappers
  import opened PhpStrings

  /** A decoded JSON value; lists and objects are both PHP arrays. */
  datatype Json =
    | JNull
    | JBool(b: bool)
    | JInt(i: int)
    | JStr(s: string)
    | JList(items: seq<Json>)
    | JObject(fields: seq<(string, Json)>)

  /** What sending one request yields: a connection exception, an HTTP error status, or a decoded body. */
  datatype Response = Thrown | Failed | Ok(body: Json)

  /** The outcome of a client call: it either throws or returns a value. */
  datatype Answer<T> = Threw | Returned(value: T)

  predicate IsArray(j: Json) { j.JList? || j.JObject? }

  /** The first field named `key`. */
  function FieldOf(fields: seq<(string, Json)>, key: string): (r: Option<Json>)
    ensures r.Some? <==> exists i :: 0 <= i < |fields| && fields[i].0 == key
    ensures r.Some? ==> exists i :: 0 <= i < |fields| && fields[i] == (key, r.value)
  {
    if fields == [] then None
    else if fields[0].0 == key then Some(fields[0].1)
    else
      var r := FieldOf(fields[1..], key);
      assert forall i :: 0 <= i < |fields| - 1 ==> fields[1..][i] == fields[i + 1];
      r
  }

  /**
   * `$array[$key]` for a non-numeric string key: only objects have string
   * keys, so lists and scalars have no such element.
   */
  function Element(j: Json, key: string): Option<Json> {
    if j.JObject? then FieldOf(j.fields, key) else None
  }

  /** `array_key_exists($key, $array)`, also true for a field whose value is null. */
  predicate HasKey(j: Json, key: string) { Element(j, key).Some? }

  /** `$j[$key] ?? ...`: the element when it is set and not null. */
  function Present(j: Json, key: string): (r: Option<Json>)
    ensures r.Some? ==> r.value != JNull && HasKey(j, key)
  {
    match Element(j, key)
    case Some(v) => if v == JNull then None else Some(v)
    case None => None
  }

  /**
   * `Arr::get($data, "outer.inner")`: a literal dotted key wins, then the
   * path is followed one segment at a time; None stands for the default.
   */
  function ArrGet(data: Json, outer: string, inner: string): (r: Option<Json>)
    ensures !IsArray(data) ==> r.None?
    ensures !HasKey(data, outer + "." + inner) && HasKey(data, outer) ==> r == Element(Element(data, outer).value, inner)
  {
    if !IsArray(data) then None
    else if HasKey(data, outer + "." + inner) then Element(data, outer + "." + inner)
    else match Element(data, outer)
      case Some(v) => Element(v, inner)
      case None => None
  }

  /** The values of a PHP array, in order (what `array_map` and `foreach` visit). */
  function Values(fields: seq<(string, Json)>): (vs: seq<Json>)
    ensures |vs| == |fields|
    ensures forall i :: 0 <= i < |fields| ==> vs[i] == fields[i].1
  {
    if fields == [] then [] else [fields[0].1] + Values(fields[1..])
  }

  function Entries(j: Json): seq<Json>
    requires IsArray(j)
  {
    if j.JList? then j.items else Values(j.fields)
  }

  // ---------------------------------------------------------------------
  // PHP casts
  // ---------------------------------------------------------------------

  function DigitChar(d: nat): (c: char)
    requires d < 10
    ensures IsDigit(c) && c as int - '0' as int == d
  {
    ['0', '1', '2', '3', '4', '5', '6', '7', '8', '9'][d]
  }

  /** Decimal digits of a natural number, most significant first, without leading zeros. */
  function NatToString(n: nat): (s: string)
    ensures |s| > 0 && AllDigits(s)
    ensures n > 0 ==> s[0] != '0'
    decreases n
  {
    if n < 10 then [DigitChar(n)] else NatToString(n / 10) + [DigitChar(n % 10)]
  }

  /** PHP's decimal rendering of an integer. */
  function IntToString(i: int): (s: string)
    ensures |s| > 0
    ensures i >= 0 ==> AllDigits(s)
    ensures i < 0 ==> s[0] == '-' && AllDigits(s[1..])
  {
    if i >= 0 then NatToString(i) else "-" + NatToString(-i)
  }

  /** `(string) $v`; None is the "Array to string conversion" error. */
  function StrCast(j: Json): (r: Option<string>)
    ensures r.None? <==> IsArray(j)
    ensures j.JStr? ==> r == Some(j.s)
  {
    match j
    case JNull => Some("")
    case JBool(b) => Some(if b then "1" else "")
    case JInt(i) => Some(IntToString(i))
    case JStr(s) => Some(s)
    case JList(_) => None
    case JObject(_) => None
  }

  /** Whitespace PHP skips before a numeric string. */
  predicate IsNumericSpace(c: char) {
    c == ' ' || c == '\t' || c == '\n' || c == '\r' || c == '\U{000B}' || c == '\U{000C}'
  }

  /** The longest prefix of decimal digits. */
  function LeadingDigits(s: string): (r: string)
    ensures AllDigits(r) && r <= s
    ensures r == s || !IsDigit(s[|r|])
  {
    if s == [] || !IsDigit(s[0]) then [] else [s[0]] + LeadingDigits(s[1..])
  }

  /** The value of a run of decimal digits. */
  function DigitsValue(ds: string): (v: nat)
    requires AllDigits(ds)
    decreases |ds|
  {
    if ds == [] then 0 else DigitsValue(ds[..|ds| - 1]) * 10 + (ds[|ds| - 1] as int - '0' as int)
  }

  function SkipNumericSpace(s: string): (r: string)
    ensures r <= s || (|r| <= |s| && r == s[|s| - |r|..])
    ensures r == [] || !IsNumericSpace(r[0])
  {
    if s != [] && IsNumericSpace(s[0]) then SkipNumericSpace(s[1..]) else s
  }

  /** `(int) "..."`: optional whitespace, an optional sign, then the leading digits (0 when there are none). */
  function StringToInt(s: string): (n: int) {
    var t := SkipNumericSpace(s);
    if t != [] && t[0] == '-' then 0 - DigitsValue(LeadingDigits(t[1..])) as int
    else if t != [] && t[0] == '+' then DigitsValue(LeadingDigits(t[1..]))
    else DigitsValue(LeadingDigits(t))
  }

  /** `(int) $v`. */
  function IntCast(j: Json): (r: int)
    ensures j.JInt? ==> r == j.i
    ensures j.JBool? ==> r == (if j.b then 1 else 0)
    ensures j == JNull ==> r == 0
  {
    match j
    case JNull => 0
    case JBool(b) => if b then 1 else 0
    case JInt(i) => i
    case JStr(s) => StringToInt(s)
    case JList(items) => if items == [] then 0 else 1
    case JObject(fields) => if fields == [] then 0 else 1
  }

  lemma {:induction false} DigitsValueOfNatToString(n: nat)
    ensures DigitsValue(NatToString(n)) == n
    decreases n
  {
    var s := NatToString(n);
    if n >= 10 {
      DigitsValueOfNatToString(n / 10);
      assert s[..|s| - 1] == NatToString(n / 10);
    }
  }

  lemma {:induction false} LeadingDigitsOfDigits(s: string)
    requires AllDigits(s)
    ensures LeadingDigits(s) == s
    decreases |s|
  {
    if s != [] {
      LeadingDigitsOfDigits(s[1..]);
    }
  }

  /** The string and integer casts are inverse on PHP's rendering of an integer. */
  lemma StringToIntOfIntToString(i: int)
    ensures StringToInt(IntToString(i)) == i
  {
    var s := IntToString(i);
    assert SkipNumericSpace(s) == s;
    if i >= 0 {
      LeadingDigitsOfDigits(s);
      DigitsValueOfNatToString(i);
    } else {
      assert s[1..] == NatToString(-i);
      LeadingDigitsOfDigits(s[1..]);
      DigitsValueOfNatToString(-i);
    }
  }

  /** Casting an integer to string and back gives the integer. */
  lemma CastRoundTrip(i: int)
    ensures StrCast(JInt(i)).Some? && IntCast(JStr(StrCast(JInt(i)).value)) == i
  {
    StringToIntOfIntToString(i);
  }

  // ---------------------------------------------------------------------
  // Requests
  // ---------------------------------------------------------------------

  /** `max(1, min(500, $limit))`. */
  function ClampLimit(limit: int): (r: int)
    ensures 1 <= r <= 500
    ensures 1 <= limit <= 500 ==> r == limit
    ensures limit < 1 ==> r == 1
    ensures limit > 500 ==> r == 500
  {
    if limit < 1 then 1 else if limit > 500 then 500 else limit
  }

  /** Adds the continuation parameter only for a truthy token. */
  function WithContinuation(params: map<string, string>, name: string, token: Option<string>): (p: map<string, string>)
    requires name !in params
    ensures name in p <==> Truthy(token)
    ensures name in p ==> p[name] == token.value
    ensures forall k :: k in params ==> k in p && p[k] == params[k]
    ensures forall k :: k in p && k != name ==> k in params
  {
    if Truthy(token) then params[name := token.value] else params
  }

  function EmbeddedInParams(templateTitle: string, token: Option<string>): map<string, string> {
    WithContinuation(map["action" := "query", "format" := "json", "list" := "embeddedin",
      "eititle" := templateTitle, "eilimit" := "100", "einamespace" := "0"], "eicontinue", token)
  }

  function AllPagesParams(limit: int, token: Option<string>): map<string, string> {
    WithContinuation(map["action" := "query", "format" := "json", "list" := "allpages",
      "aplimit" := IntToString(ClampLimit(limit)), "apnamespace" := "0"], "apcontinue", token)
  }

  function CategoryMembersParams(categoryTitle: string, token: Option<string>): map<string, string> {
    WithContinuation(map["action" := "query", "format" := "json", "list" := "categorymembers",
      "cmtitle" := categoryTitle, "cmtype" := "subcat|page", "cmlimit" := "100"], "cmcontinue", token)
  }

  /** Each listing request carries a continuation parameter exactly when the token is truthy. */
  lemma ContinuationParamIffTruthy(title: string, limit: int, token: Option<string>)
    ensures "eicontinue" in EmbeddedInParams(title, token) <==> Truthy(token)
    ensures "apcontinue" in AllPagesParams(limit, token) <==> Truthy(token)
    ensures "cmcontinue" in CategoryMembersParams(title, token) <==> Truthy(token)
    ensures "aplimit" in AllPagesParams(limit, token)
    ensures StringToInt(AllPagesParams(limit, token)["aplimit"]) == ClampLimit(limit)
  {
    StringToIntOfIntToString(ClampLimit(limit));
  }

  // ---------------------------------------------------------------------
  // Listings
  // ---------------------------------------------------------------------

  /** One page of a listing: the mapped members and the raw `continue` value (JNull when absent). */
  datatype Listing<M> = Listing(members: seq<M>, cont: Json)

  /** A member of `embeddedin` or `allpages`. */
  datatype PageRef = PageRef(title: string, ns: int)

  /** A member of `categorymembers`: title and type are passed through uncast. */
  datatype CategoryMember = CategoryMember(title: Json, kind: Json)

  /** `['title' => (string) ($m['title'] ?? ''), 'ns' => (int) ($m['ns'] ?? 0)]`. */
  function PageRefOf(m: Json): Option<PageRef> {
    match StrCast(Present(m, "title").GetOr(JStr("")))
    case Some(title) => Some(PageRef(title, IntCast(Present(m, "ns").GetOr(JInt(0)))))
    case None => None
  }

  /** `array_map` of PageRefOf; the first failing cast throws. */
  function PageRefs(ms: seq<Json>): (r: Answer<seq<PageRef>>)
    ensures r.Returned? <==> forall i :: 0 <= i < |ms| ==> PageRefOf(ms[i]).Some?
    ensures r.Returned? ==> |r.value| == |ms| && forall i :: 0 <= i < |ms| ==> Some(r.value[i]) == PageRefOf(ms[i])
  {
    if ms == [] then Returned([])
    else match PageRefOf(ms[0])
      case None => Threw
      case Some(p) =>
        match PageRefs(ms[1..])
        case Threw =>
          assert exists i :: 0 <= i < |ms[1..]| && PageRefOf(ms[1..][i]).None?;
          Threw
        case Returned(ps) => Returned([p] + ps)
  }

  /** Maps the members found at `query.<list>`; a non-array value there throws in `array_map`. */
  function PageListing(body: Json, list: string, contKey: string): Answer<Listing<PageRef>> {
    var members := ArrGet(body, "query", list).GetOr(JList([]));
    if !IsArray(members) then Threw
    else match PageRefs(Entries(members))
      case Threw => Threw
      case Returned(ps) => Returned(Listing(ps, ArrGet(body, "continue", contKey).GetOr(JNull)))
  }

  /** `getEmbeddedIn`: None on an HTTP error. */
  function EmbeddedIn(resp: Response): (r: Answer<Option<Listing<PageRef>>>)
    ensures resp.Failed? ==> r == Returned(None)
    ensures resp.Thrown? ==> r == Threw
    ensures r.Returned? && r.value.Some? ==> resp.Ok?
    ensures r.Returned? && r.value.None? ==> resp.Failed?
  {
    match resp
    case Thrown => Threw
    case Failed => Returned(None)
    case Ok(body) =>
      match PageListing(body, "embeddedin", "eicontinue")
      case Threw => Threw
      case Returned(l) => Returned(Some(l))
  }

  /**
   * `getAllPages`: None on an HTTP error or a set `error` key. Logging the
   * error passes it as the log context array, so a scalar error throws.
   */
  function AllPages(resp: Response): (r: Answer<Option<Listing<PageRef>>>)
    ensures resp.Failed? ==> r == Returned(None)
    ensures resp.Thrown? ==> r == Threw
    ensures resp.Ok? && Present(resp.body, "error").Some? ==> r.Returned? ==> r.value.None?
    ensures r.Returned? && r.value.Some? ==> resp.Ok? && Present(resp.body, "error").None?
  {
    match resp
    case Thrown => Threw
    case Failed => Returned(None)
    case Ok(body) =>
      match Present(body, "error")
      case Some(e) => if IsArray(e) then Returned(None) else Threw
      case None =>
        match PageListing(body, "allpages", "apcontinue")
        case Threw => Threw
        case Returned(l) => Returned(Some(l))
  }

  /**
   * `$m['type'] ?? ($m['ns'] === 14 ? 'subcat' : 'page')`. Reading a missing
   * `ns` (or indexing a member that is not an array) raises a warning, which
   * the framework turns into an exception.
   */
  function MemberKind(m: Json): (k: Answer<Json>)
    ensures Present(m, "type").Some? ==> k == Returned(Present(m, "type").value)
    ensures Present(m, "type").None? ==> (k.Threw? <==> !HasKey(m, "ns"))
    ensures Present(m, "type").None? ==> (k == Returned(JStr("subcat")) <==> Element(m, "ns") == Some(JInt(14)))
    ensures Present(m, "type").None? && k.Returned? ==> k.value == JStr("subcat") || k.value == JStr("page")
  {
    match Present(m, "type")
    case Some(t) => Returned(t)
    case None =>
      match Element(m, "ns")
      case None => Threw
      case Some(ns) => if ns == JInt(14) then Returned(JStr("subcat")) else Returned(JStr("page"))
  }

  function CategoryMemberOf(m: Json): Answer<CategoryMember> {
    match MemberKind(m)
    case Threw => Threw
    case Returned(kind) => Returned(CategoryMember(Present(m, "title").GetOr(JStr("")), kind))
  }

  /** `array_map` of CategoryMemberOf; the first member that throws ends the call. */
  function CategoryMembersOf(ms: seq<Json>): (r: Answer<seq<CategoryMember>>)
    ensures r.Returned? <==> forall i :: 0 <= i < |ms| ==> CategoryMemberOf(ms[i]).Returned?
    ensures r.Returned? ==> |r.value| == |ms| && forall i :: 0 <= i < |ms| ==> Returned(r.value[i]) == CategoryMemberOf(ms[i])
  {
    if ms == [] then Returned([])
    else match CategoryMemberOf(ms[0])
      case Threw => Threw
      case Returned(c) =>
        match CategoryMembersOf(ms[1..])
        case Threw =>
          assert exists i :: 0 <= i < |ms[1..]| && CategoryMemberOf(ms[1..][i]).Threw?;
          Threw
        case Returned(cs) => Returned([c] + cs)
  }

  /** `getCategoryMembers`: None on an HTTP error. */
  function CategoryMembers(resp: Response): (r: Answer<Option<Listing<CategoryMember>>>)
    ensures resp.Failed? ==> r == Returned(None)
    ensures resp.Thrown? ==> r == Threw
    ensures r.Returned? && r.value.Some? ==> resp.Ok?
    ensures r.Returned? && r.value.None? ==> resp.Failed?
  {
    match resp
    case Thrown => Threw
    case Failed => Returned(None)
    case Ok(body) =>
      var members := ArrGet(body, "query", "categorymembers").GetOr(JList([]));
      if !IsArray(members) then Threw
      else match CategoryMembersOf(Entries(members))
        case Threw => Threw
        case Returned(cs) => Returned(Some(Listing(cs, ArrGet(body, "continue", "cmcontinue").GetOr(JNull))))
  }

  /**
   * A listed member keeps its title, with '' as the default. One without a
   * type throws when it has no `ns`, and is otherwise a subcategory exactly
   * when its ns is 14.
   */
  lemma CategoryMemberMapping(m: Json)
    ensures Present(m, "type").Some? ==> CategoryMemberOf(m).Returned?
    ensures CategoryMemberOf(m).Returned? && Present(m, "title").Some? ==> CategoryMemberOf(m).value.title == Present(m, "title").value
    ensures CategoryMemberOf(m).Returned? && Present(m, "title").None? ==> CategoryMemberOf(m).value.title == JStr("")
    ensures Present(m, "type").None? ==> (CategoryMemberOf(m).Threw? <==> !HasKey(m, "ns"))
    ensures Present(m, "type").None? && CategoryMemberOf(m).Returned? ==>
      (CategoryMemberOf(m).value.kind == JStr("subcat") <==> Element(m, "ns") == Some(JInt(14)))
  {
  }

  /** A listed member with neither `type` nor `ns` makes `getCategoryMembers` throw. */
  lemma UntypedMemberWithoutNsThrows(resp: Response, i: nat)
    requires resp.Ok?
    requires IsArray(ArrGet(resp.body, "query", "categorymembers").GetOr(JList([])))
    requires i < |Entries(ArrGet(resp.body, "query", "categorymembers").GetOr(JList([])))|
    requires var m := Entries(ArrGet(resp.body, "query", "categorymembers").GetOr(JList([])))[i];
      Present(m, "type").None? && !HasKey(m, "ns")
    ensures CategoryMembers(resp) == Threw
  {
    var ms := Entries(ArrGet(resp.body, "query", "categorymembers").GetOr(JList([])));
    assert CategoryMemberOf(ms[i]).Threw?;
  }

  /** A listed page member maps to its cast title, with '' and 0 as defaults. */
  lemma PageRefMapping(m: Json)
    ensures Present(m, "title").None? ==> PageRefOf(m).Some? && PageRefOf(m).value.title == ""
    ensures Present(m, "ns").None? && PageRefOf(m).Some? ==> PageRefOf(m).value.ns == 0
    ensures (exists s :: Present(m, "title") == Some(JStr(s))) ==> PageRefOf(m).Some? && Some(JStr(PageRefOf(m).value.title)) == Present(m, "title")
  {
  }

  // ---------------------------------------------------------------------
  // Predicates over the query payload
  // ---------------------------------------------------------------------

  /** `isset($page['pageprops']) && is_array(...) && array_key_exists('disambiguation', ...)`. */
  predicate MarksDisambiguation(page: Json) {
    match Present(page, "pageprops")
    case Some(props) => IsArray(props) && HasKey(props, "disambiguation")
    case None => false
  }

  function AnyDisambiguation(pages: seq<Json>): (r: bool)
    ensures r <==> exists i :: 0 <= i < |pages| && MarksDisambiguation(pages[i])
  {
    if pages == [] then false
    else if MarksDisambiguation(pages[0]) then true
    else
      var r := AnyDisambiguation(pages[1..]);
      assert forall i :: 0 <= i < |pages| - 1 ==> pages[1..][i] == pages[i + 1];
      r
  }

  /** `isDisambiguation`: an HTTP error or a non-array `query.pages` counts as not a disambiguation page. */
  function IsDisambiguation(resp: Response): (r: Answer<bool>)
    ensures r == Threw <==> resp.Thrown?
    ensures resp.Failed? ==> r == Returned(false)
  {
    match resp
    case Thrown => Threw
    case Failed => Returned(false)
    case Ok(body) =>
      var pages := ArrGet(body, "query", "pages").GetOr(JList([]));
      if !IsArray(pages) then Returned(false) else Returned(AnyDisambiguation(Entries(pages)))
  }

  /** True exactly when some returned page carries the `disambiguation` page property. */
  lemma DisambiguationIff(resp: Response)
    requires resp.Ok?
    ensures var pages := ArrGet(resp.body, "query", "pages").GetOr(JList([]));
      IsDisambiguation(resp) == Returned(IsArray(pages) && exists i :: 0 <= i < |Entries(pages)| && MarksDisambiguation(Entries(pages)[i]))
  {
  }

  /** `(string) ($redir['from'] ?? '')`. */
  function FromOf(redir: Json): Option<string> {
    StrCast(Present(redir, "from").GetOr(JStr("")))
  }

  predicate RedirectsFrom(redir: Json, title: string) {
    var from := FromOf(redir);
    from.Some? && from.value != "" && EqualsIgnoreCase(from.value, title)
  }

  /** The `foreach` over `query.redirects`: stops at the first match; a failing cast before it throws. */
  function RedirectScan(redirects: seq<Json>, title: string): (r: Answer<bool>)
    ensures r == Returned(true) ==> exists i :: 0 <= i < |redirects| && RedirectsFrom(redirects[i], title)
    ensures (forall i :: 0 <= i < |redirects| ==> FromOf(redirects[i]).Some?) ==>
      r == Returned(exists i :: 0 <= i < |redirects| && RedirectsFrom(redirects[i], title))
  {
    if redirects == [] then Returned(false)
    else match FromOf(redirects[0])
      case None => Threw
      case Some(from) =>
        if from != "" && EqualsIgnoreCase(from, title) then Returned(true)
        else
          var r := RedirectScan(redirects[1..], title);
          assert forall i :: 0 <= i < |redirects| - 1 ==> redirects[1..][i] == redirects[i + 1];
          r
  }

  /** `isRedirect`: an HTTP error or a non-array `query.redirects` counts as not a redirect. */
  function IsRedirect(title: string, resp: Response): (r: Answer<bool>)
    ensures resp.Thrown? ==> r == Threw
    ensures resp.Failed? ==> r == Returned(false)
    ensures r == Returned(true) ==> resp.Ok?
  {
    match resp
    case Thrown => Threw
    case Failed => Returned(false)
    case Ok(body) =>
      var redirects := ArrGet(body, "query", "redirects").GetOr(JList([]));
      if !IsArray(redirects) then Returned(false) else RedirectScan(Entries(redirects), title)
  }

  /** A redirect entry with an empty `from` never matches, even the empty title. */
  lemma EmptyFromNeverMatches(redir: Json, title: string)
    requires Present(redir, "from").None?
    ensures !RedirectsFrom(redir, title)
  {
  }

  // ---------------------------------------------------------------------
  // Parse bundle
  // ---------------------------------------------------------------------

  /** The page HTML and wikitext as read from the parse payload; None is PHP null. */
  datatype Bundle = Bundle(html: Option<Json>, wikitext: Option<Json>)

  /** `$json['parse'][$key] ?? null`, then `['*']` of an array or the string itself. */
  function ParseField(body: Json, key: string): (r: Option<Json>)
    ensures r.Some? ==> r.value != JNull
  {
    match Present(body, "parse")
    case None => None
    case Some(p) =>
      match Present(p, key)
      case None => None
      case Some(v) => if IsArray(v) then Present(v, "*") else if v.JStr? then Some(v) else None
  }

  /** The bundle cached for a response that did not throw: an HTTP error gives two nulls. */
  function BundleOf(resp: Response): (b: Bundle)
    requires !resp.Thrown?
    ensures resp.Failed? ==> b == Bundle(None, None)
  {
    match resp
    case Failed => Bundle(None, None)
    case Ok(body) => Bundle(ParseField(body, "text"), ParseField(body, "wikitext"))
  }

  /** `is_string($v) && $v !== '' ? $v : null`. */
  function NonEmptyString(v: Option<Json>): (r: Option<string>)
    ensures r.Some? <==> v.Some? && v.value.JStr? && v.value.s != ""
    ensures r.Some? ==> v == Some(JStr(r.value))
  {
    match v
    case Some(JStr(s)) => if s != "" then Some(s) else None
    case _ => None
  }

  /** The client's memo state: the bundle cache and the titles a parse request was sent for, in order. */
  datatype Memo = Memo(cache: map<string, Bundle>, sent: seq<string>)

  /** One `fetchParseBundle` call, given the response a request would get. */
  function FetchStep(m: Memo, title: string, resp: Response): (Answer<Bundle>, Memo) {
    if title in m.cache then (Returned(m.cache[title]), m)
    else if resp.Thrown? then (Threw, Memo(m.cache, m.sent + [title]))
    else (Returned(BundleOf(resp)), Memo(m.cache[title := BundleOf(resp)], m.sent + [title]))
  }

  /**
   * Once a call for a title returned, every later call for it returns the
   * same bundle and sends nothing, whatever the server would answer;
   * HTTP errors are cached too.
   */
  lemma RepeatFetchIsCached(m: Memo, title: string, resp1: Response, resp2: Response)
    ensures var (r1, m1) := FetchStep(m, title, resp1);
      r1.Returned? ==> FetchStep(m1, title, resp2) == (r1, m1)
    ensures !resp1.Thrown? ==> FetchStep(m, title, resp1).0.Returned?
  {
  }

  /** A call sends a request exactly when the title is not cached; a throw caches nothing. */
  lemma FetchSendsOnMiss(m: Memo, title: string, resp: Response)
    ensures var (r, m1) := FetchStep(m, title, resp);
      (m1.sent == m.sent + [title] <==> title !in m.cache) &&
      (title in m.cache ==> m1 == m) &&
      (r == Threw ==> m1.cache == m.cache) &&
      (forall t :: t in m.cache ==> t in m1.cache && m1.cache[t] == m.cache[t])
  {
  }

  class Client {
    var parseBundleCache: map<string, Bundle>
    var sent: seq<string>

    function State(): Memo
      reads this
    {
      Memo(parseBundleCache, sent)
    }

    constructor ()
      ensures parseBundleCache == map[] && sent == []
    {
      parseBundleCache := map[];
      sent := [];
    }

    /** `fetchParseBundle`: `resp` is what a request would get if one is sent. */
    method FetchParseBundle(title: string, resp: Response) returns (r: Answer<Bundle>)
      modifies this
      ensures (r, State()) == FetchStep(old(State()), title, resp)
    {
      if title in parseBundleCache {
        return Returned(parseBundleCache[title]);
      }
      sent := sent + [title];
      if resp.Thrown? {
        return Threw;
      }
      var bundle := BundleOf(resp);
      parseBundleCache := parseBundleCache[title := bundle];
      return Returned(bundle);
    }

    /** `getPageHtml`: the cached or fetched HTML when it is a non-empty string. */
    method GetPageHtml(title: string, resp: Response) returns (r: Answer<Option<string>>)
      modifies this
      ensures var (b, m) := FetchStep(old(State()), title, resp);
        State() == m && r == (if b.Threw? then Threw else Returned(NonEmptyString(b.value.html)))
    {
      var b := FetchParseBundle(title, resp);
      if b.Threw? {
        return Threw;
      }
      return Returned(NonEmptyString(b.value.html));
    }

    /** `getPageWikitext`: the cached or fetched wikitext when it is a non-empty string. */
    method GetPageWikitext(title: string, resp: Response) returns (r: Answer<Option<string>>)
      modifies this
      ensures var (b, m) := FetchStep(old(State()), title, resp);
        State() == m && r == (if b.Threw? then Threw else Returned(NonEmptyString(b.value.wikitext)))
    {
      var b := FetchParseBundle(title, resp);
      if b.Threw? {
        return Threw;
      }
      return Returned(NonEmptyString(b.value.wikitext));
    }
  }
}
