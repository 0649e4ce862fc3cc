/**
 * Public status pages: the address a page gets, the address a visitor's request is turned
 * into, and the monitors a page may show.  Text is ASCII.
 */
module StatusPages {
  import opened Common

  const MAX_SLUG := 60
  const MAX_MONITORS_PER_PAGE := 50
  const MAX_PAGES_PER_USER := 25
  const MAX_NAME := 80
  const MAX_DESCRIPTION := 280

  const RESERVED_SLUGS: set<string> :=
    {"api", "admin", "login", "logout", "register", "dashboard", "settings", "status", "metrics", "health",
     "assets", "static", "new", "edit", "null", "undefined"}

  // ---------------------------------------------------------------- slugify

  predicate IsAlnum(c: char) {
    'a' <= c <= 'z' || '0' <= c <= '9'
  }

  predicate IsSpace(c: char) {
    c == ' ' || '\t' <= c <= '\r'
  }

  function LowerChar(c: char): (r: char)
    ensures 'A' <= c <= 'Z' ==> r as int - 'a' as int == c as int - 'A' as int
    ensures !('A' <= c <= 'Z') ==> r == c
  {
    if 'A' <= c <= 'Z' then c - 'A' + 'a' else c
  }

  function Lower(s: string): (r: string)
    ensures |r| == |s| && forall i :: 0 <= i < |s| ==> r[i] == LowerChar(s[i])
  {
    seq(|s|, i requires 0 <= i < |s| => LowerChar(s[i]))
  }

  function TrimStart(s: string): string {
    if s != "" && IsSpace(s[0]) then TrimStart(s[1..]) else s
  }

  function TrimEnd(s: string): string {
    if s != "" && IsSpace(s[|s| - 1]) then TrimEnd(s[..|s| - 1]) else s
  }

  function Trim(s: string): string {
    TrimEnd(TrimStart(s))
  }

  /** Every maximal run of other characters becomes one hyphen. */
  function Hyphenate(s: string): string {
    if s == "" then ""
    else
      var n := |s| - 1;
      if IsAlnum(s[n]) then Hyphenate(s[..n]) + [s[n]]
      else if 0 < n && !IsAlnum(s[n - 1]) then Hyphenate(s[..n])
      else Hyphenate(s[..n]) + "-"
  }

  function StripStart(s: string): string {
    if s != "" && s[0] == '-' then StripStart(s[1..]) else s
  }

  function StripEnd(s: string): string {
    if s != "" && s[|s| - 1] == '-' then StripEnd(s[..|s| - 1]) else s
  }

  /** The normalised text before it is cut to length. */
  function Normalised(s: string): string {
    StripEnd(StripStart(Hyphenate(Trim(Lower(s)))))
  }

  function Slugify(input: Option<string>): string {
    var s := Normalised(if input.Some? then input.value else "");
    s[..Min(|s|, MAX_SLUG)]
  }

  // ---------------------------------------------------------------- what a slug says

  /** Trimming takes the white space off both ends and nothing else. */
  lemma TrimSpec(s: string)
    ensures var t := Trim(s);
            && (t != "" ==> !IsSpace(t[0]) && !IsSpace(t[|t| - 1]))
            && exists a, b :: s == a + t + b && AllSpace(a) && AllSpace(b)
  {
    var a := TrimStartSpec(s);
    var b := TrimEndSpec(TrimStart(s));
    assert s == a + Trim(s) + b;
    if Trim(s) != "" { assert Trim(s)[0] == TrimStart(s)[0]; }
  }

  predicate AllSpace(s: string) {
    forall i :: 0 <= i < |s| ==> IsSpace(s[i])
  }

  lemma {:induction false} TrimStartSpec(s: string) returns (a: string)
    ensures s == a + TrimStart(s) && AllSpace(a) && (TrimStart(s) != "" ==> !IsSpace(TrimStart(s)[0]))
  {
    a := "";
    if s != "" && IsSpace(s[0]) {
      var rest := TrimStartSpec(s[1..]);
      a := [s[0]] + rest;
    }
  }

  lemma {:induction false} TrimEndSpec(s: string) returns (b: string)
    ensures s == TrimEnd(s) + b && AllSpace(b) && (TrimEnd(s) != "" ==> !IsSpace(TrimEnd(s)[|TrimEnd(s)| - 1]))
  {
    b := "";
    if s != "" && IsSpace(s[|s| - 1]) {
      var rest := TrimEndSpec(s[..|s| - 1]);
      b := rest + [s[|s| - 1]];
    }
  }

  predicate EndsInWord(s: string) {
    s != "" && IsAlnum(s[|s| - 1])
  }

  /** The maximal runs of letters and digits, in order. */
  function Words(s: string): (ws: seq<string>)
    ensures EndsInWord(s) ==> ws != []
  {
    if s == "" then []
    else
      var rest, c := s[..|s| - 1], s[|s| - 1];
      if !IsAlnum(c) then Words(rest)
      else if EndsInWord(rest) then Words(rest)[|Words(rest)| - 1 := Words(rest)[|Words(rest)| - 1] + [c]]
      else Words(rest) + [[c]]
  }

  function Join(ws: seq<string>): string {
    if ws == [] then ""
    else if |ws| == 1 then ws[0]
    else Join(ws[..|ws| - 1]) + "-" + ws[|ws| - 1]
  }

  lemma {:induction false} JoinExtended(ws: seq<string>, c: char)
    requires ws != []
    ensures Join(ws[|ws| - 1 := ws[|ws| - 1] + [c]]) == Join(ws) + [c]
  {
    assert ws[|ws| - 1 := ws[|ws| - 1] + [c]][..|ws| - 1] == ws[..|ws| - 1];
  }

  lemma JoinSnoc(ws: seq<string>, w: string)
    ensures Join(ws + [w]) == if ws == [] then w else Join(ws) + "-" + w
  {
    assert (ws + [w])[..|ws|] == ws;
  }

  /** Hyphenated text is its words joined by hyphens, with one more at either end that is no word. */
  lemma {:induction false} HyphenateIsJoin(s: string)
    ensures Hyphenate(s) == Before(s) + Join(Words(s)) + After(s)
  {
    if s != "" {
      var rest, c := s[..|s| - 1], s[|s| - 1];
      HyphenateIsJoin(rest);
      assert s == rest + [c];
      OneMore(rest, c);
      if IsAlnum(c) { JoinOneMore(rest, c); }
      Regroup(Before(rest), Join(Words(rest)), c);
    }
  }

  /** How one more character changes the hyphenated text and the words. */
  lemma OneMore(rest: string, c: char)
    ensures var s := rest + [c];
            && Hyphenate(s) == (if IsAlnum(c) then Hyphenate(rest) + [c]
                                else if rest != "" && !EndsInWord(rest) then Hyphenate(rest) else Hyphenate(rest) + "-")
            && (!IsAlnum(c) ==> Words(s) == Words(rest))
            && Before(s) == (if rest != "" then Before(rest) else if IsAlnum(c) then "" else "-")
  {
    assert (rest + [c])[..|rest|] == rest;
    assert rest != "" ==> (rest + [c])[0] == rest[0];
  }

  /** A letter or digit goes on with the last word, or begins one after a hyphen unless it is the first. */
  lemma JoinOneMore(rest: string, c: char)
    requires IsAlnum(c)
    ensures Words(rest + [c]) != []
    ensures Join(Words(rest + [c])) == Join(Words(rest)) + After(rest) + [c]
  {
    assert (rest + [c])[..|rest|] == rest;
    if EndsInWord(rest) {
      JoinExtended(Words(rest), c);
      assert Join(Words(rest)) + After(rest) == Join(Words(rest));
    } else {
      JoinSnoc(Words(rest), [c]);
      assert Words(rest) == [] ==> Join(Words(rest)) + After(rest) + [c] == [c];
    }
  }

  lemma Regroup(a: string, b: string, c: char)
    ensures forall d: string :: (a + b + d) + [c] == a + (b + d + [c]) + ""
    ensures (a + b + "") + "-" == a + b + "-" && a + b + "" == a + b
  {
    forall d: string ensures (a + b + d) + [c] == a + (b + d + [c]) + "" {}
  }

  function Before(s: string): string {
    if s != "" && !IsAlnum(s[0]) then "-" else ""
  }

  function After(s: string): string {
    if Words(s) != [] && !EndsInWord(s) then "-" else ""
  }

  /** Every word consists of letters and digits, at least one. */
  lemma {:induction false} WordsAreAlnum(s: string)
    ensures forall i :: 0 <= i < |Words(s)| ==> IsWord(Words(s)[i])
  {
    if s != "" { WordsAreAlnum(s[..|s| - 1]); }
  }

  predicate IsWord(w: string) {
    w != "" && forall i :: 0 <= i < |w| ==> IsAlnum(w[i])
  }

  lemma {:induction false} JoinEnds(ws: seq<string>)
    requires ws != [] && forall i :: 0 <= i < |ws| ==> IsWord(ws[i])
    ensures Join(ws) != "" && IsAlnum(Join(ws)[0]) && IsAlnum(Join(ws)[|Join(ws)| - 1])
  {
    if 1 < |ws| { JoinEnds(ws[..|ws| - 1]); }
  }

  /** Characters in front of or behind the words do not matter. */
  lemma {:induction false} WordsSkipFirst(s: string)
    requires s != "" && !IsAlnum(s[0])
    ensures Words(s[1..]) == Words(s)
  {
    if 1 < |s| {
      WordsSkipFirst(s[..|s| - 1]);
      assert s[1..][..|s| - 2] == s[..|s| - 1][1..];
      assert EndsInWord(s[..|s| - 1]) <==> EndsInWord(s[..|s| - 1][1..]);
    }
  }

  lemma {:induction false} WordsTrimStart(s: string)
    ensures Words(TrimStart(s)) == Words(s)
  {
    if s != "" && IsSpace(s[0]) {
      WordsTrimStart(s[1..]);
      WordsSkipFirst(s);
    }
  }

  lemma {:induction false} WordsTrimEnd(s: string)
    ensures Words(TrimEnd(s)) == Words(s)
  {
    if s != "" && IsSpace(s[|s| - 1]) { WordsTrimEnd(s[..|s| - 1]); }
  }

  /**
   * A slug is the words of the lower-cased text, joined by single hyphens, and cut to length.
   */
  lemma SlugIsWords(input: Option<string>)
    ensures var full := Join(Words(Lower(if input.Some? then input.value else "")));
            Slugify(input) == full[..Min(|full|, 60)]
  {
    var s := Lower(if input.Some? then input.value else "");
    WordsTrimStart(s);
    WordsTrimEnd(TrimStart(s));
    HyphenateIsJoin(Trim(s));
    WordsAreAlnum(Trim(s));
    var words, joined := Words(Trim(s)), Join(Words(Trim(s)));
    if words != [] { JoinEnds(words); }
    StripsToJoin(Before(Trim(s)), joined, After(Trim(s)));
  }

  /** Stripping takes one hyphen off either end and stops at the words. */
  lemma StripsToJoin(before: string, joined: string, after: string)
    requires before in {"", "-"} && after in {"", "-"}
    requires joined == "" ==> after == ""
    requires joined != "" ==> IsAlnum(joined[0]) && IsAlnum(joined[|joined| - 1])
    ensures StripEnd(StripStart(before + joined + after)) == joined
  {
    var text := joined + after;
    assert before + joined + after == before + text;
    assert StripStart(text) == text;
    assert StripStart(before + text) == text by {
      if before == "-" { assert (before + text)[1..] == text; } else { assert before + text == text; }
    }
    assert StripEnd(joined) == joined;
    if after == "-" { assert text[..|text| - 1] == joined; } else { assert text == joined; }
  }

  // ---------------------------------------------------------------- what a slug looks like

  predicate IsSlugChar(c: char) {
    IsAlnum(c) || c == '-'
  }

  /** Slug characters only, and no two hyphens in a row. */
  predicate Clean(s: string) {
    && (forall i :: 0 <= i < |s| ==> IsSlugChar(s[i]))
    && (forall i :: 0 < i < |s| ==> s[i - 1] != '-' || s[i] != '-')
  }

  predicate StartsWell(s: string) {
    s == "" || s[0] != '-'
  }

  predicate EndsWell(s: string) {
    s == "" || s[|s| - 1] != '-'
  }

  /** Hyphens in the output end exactly the runs of other characters in the input. */
  lemma {:induction false} HyphenateClean(s: string)
    ensures Clean(Hyphenate(s))
    ensures s != "" ==> Hyphenate(s) != "" && (Hyphenate(s)[|Hyphenate(s)| - 1] == '-' <==> !IsAlnum(s[|s| - 1]))
  {
    if s != "" { HyphenateClean(s[..|s| - 1]); }
  }

  lemma {:induction false} StripStartSpec(s: string)
    ensures StartsWell(StripStart(s)) && |StripStart(s)| <= |s| && StripStart(s) == s[|s| - |StripStart(s)|..]
  {
    if s != "" && s[0] == '-' { StripStartSpec(s[1..]); }
  }

  lemma {:induction false} StripEndSpec(s: string)
    ensures EndsWell(StripEnd(s)) && |StripEnd(s)| <= |s| && StripEnd(s) == s[..|StripEnd(s)|]
  {
    if s != "" && s[|s| - 1] == '-' { StripEndSpec(s[..|s| - 1]); }
  }

  lemma NormalisedShape(s: string)
    ensures Clean(Normalised(s)) && StartsWell(Normalised(s)) && EndsWell(Normalised(s))
  {
    var h := Hyphenate(Trim(Lower(s)));
    HyphenateClean(Trim(Lower(s)));
    StripStartSpec(h);
    StripEndSpec(StripStart(h));
  }

  /** A slug is at most 60 of [a-z0-9-], with no leading or doubled hyphen, and ends in one only where it was cut. */
  lemma SlugShape(input: Option<string>)
    ensures var slug, full := Slugify(input), Normalised(if input.Some? then input.value else "");
            && |slug| <= MAX_SLUG && Clean(slug) && StartsWell(slug)
            && (!EndsWell(slug) <==> MAX_SLUG < |full| && full[MAX_SLUG - 1] == '-')
            && (!EndsWell(slug) ==> |slug| == MAX_SLUG)
  {
    NormalisedShape(if input.Some? then input.value else "");
  }

  lemma {:induction false} HyphenateIdentity(s: string)
    requires Clean(s)
    ensures Hyphenate(s) == s
  {
    if s != "" {
      var n := |s| - 1;
      HyphenateIdentity(s[..n]);
      assert s == s[..n] + [s[n]];
    }
  }

  /** On text that is already clean and starts well, normalising only takes a final hyphen off. */
  lemma CleanIsNearlyFixed(s: string)
    requires Clean(s) && StartsWell(s) && |s| <= MAX_SLUG
    ensures Slugify(Some(s)) == if EndsWell(s) then s else s[..|s| - 1]
  {
    assert Lower(s) == s;
    assert s != "" ==> IsSlugChar(s[0]) && IsSlugChar(s[|s| - 1]);
    assert Trim(s) == s;
    HyphenateIdentity(s);
    if !EndsWell(s) {
      assert |s| == 1 || s[|s| - 2] != '-';
      assert StripEnd(s[..|s| - 1]) == s[..|s| - 1];
    }
  }

  /**
   * Slugify is idempotent exactly on input whose slug does not end in a hyphen, and always after
   * a second application.
   */
  lemma SlugifyTwice(input: Option<string>)
    ensures Slugify(Some(Slugify(input))) == Slugify(input) <==> EndsWell(Slugify(input))
    ensures var second := Slugify(Some(Slugify(input))); Slugify(Some(second)) == second
  {
    var slug := Slugify(input);
    SlugShape(input);
    CleanIsNearlyFixed(slug);
    if !EndsWell(slug) {
      var shorter := slug[..|slug| - 1];
      assert slug[|slug| - 2] != '-';
      CleanIsNearlyFixed(shorter);
    }
  }

  // ---------------------------------------------------------------- addresses

  datatype Page = Page(owner: nat, name: string, description: string, slug: string, monitors: seq<string>,
                       isPublic: bool)

  datatype Refusal =
    | NameRequired | TooManyPages | TextTooLong
    | NothingToBuildFrom | ReservedAddress | AddressTaken
    | TooManyMonitors | NotAnArray | BadMonitorId | MonitorNotFound

  datatype Result<+T> = Ok(value: T) | Refused(reason: Refusal)

  type Pages = map<nat, Page>

  /** The globally unique slug index. */
  ghost predicate UniqueSlugs(pages: Pages) {
    forall p, q :: p in pages && q in pages && pages[p].slug == pages[q].slug ==> p == q
  }

  predicate SlugTaken(pages: Pages, slug: string, excludeId: Option<nat>) {
    exists p :: p in pages && pages[p].slug == slug && excludeId != Some(p)
  }

  /** A free, legal slug for the requested text, or why there is none. */
  function ResolveSlug(pages: Pages, requested: Option<string>, excludeId: Option<nat>): Result<string> {
    var slug := Slugify(requested);
    if slug == "" then Refused(NothingToBuildFrom)
    else if slug in RESERVED_SLUGS then Refused(ReservedAddress)
    else if SlugTaken(pages, slug, excludeId) then Refused(AddressTaken)
    else Ok(slug)
  }

  /** An address is given out exactly when it is legal and nobody else's, and a refusal says why. */
  lemma ResolveSlugSpec(pages: Pages, requested: Option<string>, excludeId: Option<nat>)
    ensures var r, slug := ResolveSlug(pages, requested, excludeId), Slugify(requested);
            && (r == Ok(slug) <==>
                  && slug != "" && slug !in RESERVED_SLUGS
                  && forall p :: p in pages && pages[p].slug == slug ==> excludeId == Some(p))
            && (r.Ok? ==> r.value == slug)
            && (r == Refused(NothingToBuildFrom) <==> slug == "")
            && (r == Refused(ReservedAddress) <==> slug in RESERVED_SLUGS)
            && (r.Refused? && slug != "" && slug !in RESERVED_SLUGS ==> r == Refused(AddressTaken))
  {
  }

  /** Whether a page answers a visitor who asks for this address. */
  predicate Answers(pages: Pages, id: nat, address: string) {
    id in pages && pages[id].slug == Slugify(Some(address)) && pages[id].isPublic
  }

  /**
   * Round trip from address to page: a public page is found under its own address exactly when
   * that address does not end in a hyphen, because the request is normalised again.  An
   * address that does end in one is answered by whoever owns it without the hyphen.
   */
  lemma ReachableAtOwnAddress(pages: Pages, id: nat, requested: Option<string>)
    requires UniqueSlugs(pages) && id in pages && pages[id].isPublic && pages[id].slug == Slugify(requested)
    ensures Answers(pages, id, pages[id].slug) <==> EndsWell(pages[id].slug)
    ensures forall other :: EndsWell(pages[id].slug) && Answers(pages, other, pages[id].slug) ==> other == id
    ensures var slug := pages[id].slug;
            !EndsWell(slug) ==>
              forall other :: Answers(pages, other, slug) <==>
                                other in pages && pages[other].isPublic && pages[other].slug == slug[..|slug| - 1]
  {
    SlugifyTwice(requested);
    SlugShape(requested);
    CleanIsNearlyFixed(pages[id].slug);
  }

  // ---------------------------------------------------------------- the monitors of a page

  datatype IdList = Omitted | NotArray | Items(ids: seq<string>)

  predicate IsHex(c: char) {
    '0' <= c <= '9' || 'a' <= c <= 'f' || 'A' <= c <= 'F'
  }

  /** The object-id test accepts 24 hex digits, and any 12 characters. */
  predicate IsValidObjectId(s: string) {
    |s| == 12 || (|s| == 24 && forall i :: 0 <= i < |s| ==> IsHex(s[i]))
  }

  /** First occurrences, in the order given. */
  function Unique(ids: seq<string>): (u: seq<string>)
    ensures forall x :: x in u <==> x in ids
  {
    if ids == [] then []
    else
      var rest, last := ids[..|ids| - 1], ids[|ids| - 1];
      assert ids == rest + [last];
      if last in rest then Unique(rest) else Unique(rest) + [last]
  }

  function FirstIndex(ids: seq<string>, x: string): nat {
    if ids == [] || ids[0] == x then 0 else 1 + FirstIndex(ids[1..], x)
  }

  lemma {:induction false} FirstIndexSnoc(ids: seq<string>, last: string, x: string)
    ensures x in ids ==> FirstIndex(ids + [last], x) == FirstIndex(ids, x) < |ids|
    ensures x !in ids && x == last ==> FirstIndex(ids + [last], x) == |ids|
  {
    if ids != [] {
      assert (ids + [last])[1..] == ids[1..] + [last];
      FirstIndexSnoc(ids[1..], last, x);
    }
  }

  /** No id is listed twice, and ids keep the order in which they first appeared. */
  lemma {:induction false} UniqueKeepsOrder(ids: seq<string>)
    ensures forall i, j :: 0 <= i < j < |Unique(ids)| ==>
              FirstIndex(ids, Unique(ids)[i]) < FirstIndex(ids, Unique(ids)[j])
  {
    if ids != [] {
      var rest, last := ids[..|ids| - 1], ids[|ids| - 1];
      assert ids == rest + [last];
      UniqueKeepsOrder(rest);
      forall i | 0 <= i < |Unique(ids)| ensures Unique(ids)[i] in ids {
      }
      forall x | x in ids ensures x in rest ==> FirstIndex(ids, x) == FirstIndex(rest, x) < |rest| {
        FirstIndexSnoc(rest, last, x);
      }
      FirstIndexSnoc(rest, last, last);
      assert forall i :: 0 <= i < |Unique(rest)| ==> Unique(rest)[i] in rest;
    }
  }

  /**
   * The ownership boundary: a list is accepted exactly when it is short enough and every id in
   * it is well formed and names one of the caller's own monitors.  `owned` holds the ids of
   * those monitors as the database prints them.
   */
  method ResolveOwnedMonitors(owned: set<string>, list: IdList) returns (r: Result<Option<seq<string>>>)
    ensures list.Omitted? ==> r == Ok(None)
    ensures list.NotArray? ==> r == Refused(NotAnArray)
    ensures list.Items? ==>
              r == if 50 < |list.ids| then Refused(TooManyMonitors)
                   else if exists x :: x in list.ids && !IsValidObjectId(x) then Refused(BadMonitorId)
                   else if exists x :: x in list.ids && x !in owned then Refused(MonitorNotFound)
                   else Ok(Some(Unique(list.ids)))
  {
    if list.Omitted? { return Ok(None); }
    if list.NotArray? { return Refused(NotAnArray); }
    var ids := list.ids;
    if |ids| > MAX_MONITORS_PER_PAGE { return Refused(TooManyMonitors); }

    var unique := Deduplicate(ids);
    for i := 0 to |unique|
      invariant forall k :: 0 <= k < i ==> IsValidObjectId(unique[k])
    {
      if !IsValidObjectId(unique[i]) {
        assert unique[i] in ids;
        return Refused(BadMonitorId);
      }
    }
    for i := 0 to |unique|
      invariant forall k :: 0 <= k < i ==> unique[k] in owned
    {
      if unique[i] !in owned {
        assert unique[i] in ids;
        return Refused(MonitorNotFound);
      }
    }
    r := Ok(Some(unique));
  }

  method Deduplicate(ids: seq<string>) returns (unique: seq<string>)
    ensures unique == Unique(ids)
  {
    unique := [];
    for i := 0 to |ids|
      invariant unique == Unique(ids[..i])
    {
      assert ids[..i + 1][..i] == ids[..i];
      if ids[i] !in unique { unique := unique + [ids[i]]; }
    }
    assert ids[..|ids|] == ids;
  }

  // ---------------------------------------------------------------- creating a page

  /** The request body of a new page. */
  datatype PageForm = PageForm(name: Option<string>, slug: Option<string>, description: Option<string>,
                               monitors: IdList, isPublic: Option<bool>)

  function TextOf(text: Option<string>): string {
    if text.Some? then Trim(text.value) else ""
  }

  /** The address is built from the slug when one is given, otherwise from the name. */
  function AddressText(form: PageForm): (text: Option<string>)
    ensures form.slug.Some? && form.slug.value != "" ==> text == form.slug
    ensures form.slug.None? || form.slug.value == "" ==> text == form.name
  {
    if form.slug.Some? && form.slug.value != "" then form.slug else form.name
  }

  function PagesOf(pages: Pages, owner: nat): set<nat> {
    set p | p in pages && pages[p].owner == owner
  }

  predicate IsListAccepted(owned: set<string>, list: IdList) {
    || list.Omitted?
    || (list.Items? && |list.ids| <= MAX_MONITORS_PER_PAGE
        && forall x :: x in list.ids ==> IsValidObjectId(x) && x in owned)
  }

  predicate TextsFit(form: PageForm) {
    |TextOf(form.name)| <= MAX_NAME && |TextOf(form.description)| <= MAX_DESCRIPTION
  }

  /** Everything createStatusPage requires of a request, given the pages it finds. */
  predicate IsCreatable(pages: Pages, owner: nat, form: PageForm, owned: set<string>) {
    && TextOf(form.name) != ""
    && |PagesOf(pages, owner)| < MAX_PAGES_PER_USER
    && ResolveSlug(pages, AddressText(form), None).Ok?
    && IsListAccepted(owned, form.monitors)
    && TextsFit(form)
  }

  function PageFrom(owner: nat, form: PageForm): Page {
    Page(owner, TextOf(form.name), TextOf(form.description), Slugify(AddressText(form)),
         if form.monitors.Items? then Unique(form.monitors.ids) else [],
         form.isPublic != Some(false))
  }

  /** The stored page, field by field; its name and description are what has to fit. */
  lemma PageFromSpec(owner: nat, form: PageForm)
    ensures var p := PageFrom(owner, form);
            && p.owner == owner
            && p.name == (if form.name.Some? then Trim(form.name.value) else "")
            && p.description == (if form.description.Some? then Trim(form.description.value) else "")
            && p.slug == Slugify(if form.slug.Some? && form.slug.value != "" then form.slug else form.name)
            && p.monitors == (if form.monitors.Items? then Unique(form.monitors.ids) else [])
            && (p.isPublic <==> form.isPublic != Some(false))
            && (TextsFit(form) <==> |p.name| <= 80 && |p.description| <= 280)
  {
  }

  class PageCollection {
    var pages: Pages

    constructor ()
      ensures pages == map[]
    {
      pages := map[];
    }

    /**
     * Creating a page.  `rival` is a page another request stores between the free-address
     * check and the insert; the unique index then decides, with the same answer.
     */
    method CreatePage(id: nat, owner: nat, form: PageForm, owned: set<string>, rival: Option<(nat, Page)>)
      returns (r: Result<string>)
      requires id !in pages && UniqueSlugs(pages)
      requires rival.Some? ==>
                 rival.value.0 !in pages && rival.value.0 != id && !SlugTaken(pages, rival.value.1.slug, None)
      modifies this
      ensures UniqueSlugs(pages)
      ensures var stored := if rival.Some? && IsCreatable(old(pages), owner, form, owned)
                            then old(pages)[rival.value.0 := rival.value.1] else old(pages);
              && (r.Ok? <==>
                    IsCreatable(old(pages), owner, form, owned) && !SlugTaken(stored, Slugify(AddressText(form)), None))
              && pages == if r.Ok? then stored[id := PageFrom(owner, form)] else stored
      ensures r.Ok? ==> r.value == PageFrom(owner, form).slug && r.value != "" && r.value !in RESERVED_SLUGS
      ensures r == Refused(NameRequired) <==> TextOf(form.name) == ""
      ensures r == Refused(TooManyPages) <==>
                TextOf(form.name) != "" && 25 <= |PagesOf(old(pages), owner)|
      ensures IsCreatable(old(pages), owner, form, owned) && r.Refused? ==> r == Refused(AddressTaken)
    {
      if TextOf(form.name) == "" { return Refused(NameRequired); }
      if MAX_PAGES_PER_USER <= |PagesOf(pages, owner)| { return Refused(TooManyPages); }
      r := ResolveSlug(pages, AddressText(form), None);
      if r.Refused? { return; }
      var monitors := ResolveOwnedMonitors(owned, form.monitors);
      if monitors.Refused? { return Refused(monitors.reason); }
      if !TextsFit(form) { return Refused(TextTooLong); }

      if rival.Some? {
        pages := pages[rival.value.0 := rival.value.1];
      }
      if SlugTaken(pages, r.value, None) {
        r := Refused(AddressTaken);
      } else {
        var shown := if monitors.value.Some? then monitors.value.value else [];
        pages := pages[id := Page(owner, TextOf(form.name), TextOf(form.description), r.value, shown,
                                  form.isPublic != Some(false))];
      }
    }
  }
}
