/** The product listing and search of the hardened backend: how the SQL text
    and its bound parameters are assembled from the query string, which rows
    the WHERE part selects, the sort table and the pagination arithmetic.
    The SQL text is kept as a sequence of fragments, each standing for one
    literal piece of the statements `GET /` and `GET /search` build and
    carrying its number of placeholders. */
module ProductQuery {
  import opened Basics
  import opened Text
  import opened Store

  /** A value bound to a placeholder; `PNaN` is what `parseInt` of a
      non-numeric text pushes. */
  datatype SqlParam = PStr(s: string) | PInt(n: int) | PNaN

  function NumParam(v: Option<int>): (p: SqlParam)
    ensures v.Some? <==> p.PInt?
    ensures v.Some? ==> p == PInt(v.value)
  {
    if v.Some? then PInt(v.value) else PNaN
  }

  datatype FilterKind = CategoryIs | PriceAtLeast | PriceAtMost | LocationLike

  datatype Fragment =
    | ListingSelect        // products joined with their seller, `status = 'active'`
    | SearchSelect         // relevance `AGAINST(?)`, `status = 'active'`, `(title LIKE ? OR description LIKE ?)`
    | CountSelect          // `COUNT(*)` over products, `status = "active"`, no join
    | Where(kind: FilterKind)     // ` AND p.<column> <op> ?`
    | OrderPage(orderBy: string)  // ` ORDER BY ${orderBy} LIMIT ? OFFSET ?`
    | RelevancePage        // ` ORDER BY relevance DESC, p.created_at DESC LIMIT ? OFFSET ?`

  /** The `?` characters of a text. */
  function Marks(t: string): nat
  {
    if |t| == 0 then 0 else (if t[0] == '?' then 1 else 0) + Marks(t[1..])
  }

  lemma {:induction false} MarksNone(t: string)
    requires '?' !in t
    ensures Marks(t) == 0
  {
    if |t| > 0 {
      assert t[0] in t;
      assert forall c :: c in t[1..] ==> c in t;
      MarksNone(t[1..]);
    }
  }

  /** The `?` marks in a fragment's text. */
  function Placeholders(f: Fragment): nat
  {
    match f
    case ListingSelect => 0
    case SearchSelect => 3
    case CountSelect => 0
    case Where(_) => 1
    case OrderPage(t) => Marks(t) + 2
    case RelevancePage => 2
  }

  function Holes(sql: seq<Fragment>): nat
  {
    if |sql| == 0 then 0 else Placeholders(sql[0]) + Holes(sql[1..])
  }

  lemma {:induction false} HolesAppend(a: seq<Fragment>, b: seq<Fragment>)
    ensures Holes(a + b) == Holes(a) + Holes(b)
  {
    if |a| > 0 {
      assert (a + b)[1..] == a[1..] + b;
      HolesAppend(a[1..], b);
    } else {
      assert a + b == b;
    }
  }

  /** A statement as sent: its text and the values bound to its `?` marks. */
  datatype Query = Query(sql: seq<Fragment>, params: seq<SqlParam>)

  // ---------------------------------------------------------------------
  // what a statement selects

  /** `value LIKE pattern` for the patterns the routes bind: `%x%` asks for
      `x` anywhere in the value; anything else for the value itself. */
  predicate Like(value: string, pattern: string)
  {
    if |pattern| >= 2 && pattern[0] == '%' && pattern[|pattern| - 1] == '%'
    then Includes(value, pattern[1..|pattern| - 1])
    else value == pattern
  }

  lemma LikeContains(value: string, x: string)
    ensures Like(value, "%" + x + "%") <==> Includes(value, x)
  {
    var pat := "%" + x + "%";
    assert pat[1..|pat| - 1] == x;
  }

  predicate LikeParam(value: string, v: SqlParam)
  {
    v.PStr? && Like(value, v.s)
  }

  /** One filter clause against a row. A NaN bound matches no row. */
  predicate Holds(p: Product, kind: FilterKind, v: SqlParam)
  {
    match kind
    case CategoryIs => v == PStr(p.category)
    case PriceAtLeast => v.PInt? && p.price >= v.n
    case PriceAtMost => v.PInt? && p.price <= v.n
    case LocationLike => p.location.Some? && LikeParam(p.location.value, v)
  }

  predicate HasSeller(users: seq<User>, p: Product)
  {
    UserById(users, p.sellerId).Some?
  }

  /** What one fragment asks of a row, given the values bound to its marks. */
  predicate FragmentHolds(p: Product, users: seq<User>, f: Fragment, ps: seq<SqlParam>)
    requires |ps| == Placeholders(f)
  {
    match f
    case ListingSelect => p.status == Active && HasSeller(users, p)
    case SearchSelect =>
      p.status == Active && HasSeller(users, p) && (LikeParam(p.title, ps[1]) || LikeParam(p.description, ps[2]))
    case CountSelect => p.status == Active
    case Where(kind) => Holds(p, kind, ps[0])
    case OrderPage(_) => true
    case RelevancePage => true
  }

  /** Whether the statement's WHERE part selects the row; ordering and paging
      restrict the rows returned, not the rows selected. A statement with
      fewer values than marks selects nothing. */
  predicate Selects(p: Product, users: seq<User>, sql: seq<Fragment>, params: seq<SqlParam>)
    decreases |sql|
  {
    if |sql| == 0 then true
    else
      var n := Placeholders(sql[0]);
      |params| >= n && FragmentHolds(p, users, sql[0], params[..n]) && Selects(p, users, sql[1..], params[n..])
  }

  /** A statement built by appending selects what both halves select, as
      long as each half brings the values for its own marks. */
  lemma {:induction false} SelectsAppend(p: Product, users: seq<User>, a: seq<Fragment>, b: seq<Fragment>,
                                         pa: seq<SqlParam>, pb: seq<SqlParam>)
    requires Holes(a) == |pa|
    ensures Selects(p, users, a + b, pa + pb) <==> Selects(p, users, a, pa) && Selects(p, users, b, pb)
  {
    if |a| == 0 {
      assert a + b == b && pa + pb == pb;
    } else {
      var n := Placeholders(a[0]);
      assert (a + b)[0] == a[0] && (a + b)[1..] == a[1..] + b;
      assert (pa + pb)[..n] == pa[..n];
      assert (pa + pb)[n..] == pa[n..] + pb;
      SelectsAppend(p, users, a[1..], b, pa[n..], pb);
    }
  }

  // ---------------------------------------------------------------------
  // the filter clauses

  /** A price bound after destructuring: the text sent, the destructuring
      default, or `undefined`. */
  datatype PriceArg = Sent(text: string) | Preset(n: int) | Unsent

  predicate PriceGiven(a: PriceArg)
  {
    match a
    case Sent(t) => t != ""
    case Preset(n) => n != 0
    case Unsent => false
  }

  /** `parseInt` of the bound (None for NaN). */
  function PriceValue(a: PriceArg): Option<int>
  {
    match a
    case Sent(t) => ParseInt(t)
    case Preset(n) => Some(n)
    case Unsent => None
  }

  predicate Given(v: Option<string>) { v.Some? && v.value != "" }

  /** One filter clause with the value pushed for it. */
  datatype Cond = Cond(kind: FilterKind, value: SqlParam)

  /** The text and values of a run of filter clauses: each clause appends
      ` AND ... ?` to the text and pushes its value. */
  function ToQuery(conds: seq<Cond>): (r: Query)
    ensures |r.sql| == |r.params| == |conds| == Holes(r.sql)
    ensures forall k :: 0 <= k < |conds| ==> r.sql[k] == Where(conds[k].kind) && r.params[k] == conds[k].value
  {
    if |conds| == 0 then Query([], [])
    else
      var rest := ToQuery(conds[1..]);
      Query([Where(conds[0].kind)] + rest.sql, [conds[0].value] + rest.params)
  }

  /** A run of filter clauses selects exactly the rows every clause holds for. */
  lemma {:induction false} ToQuerySelects(p: Product, users: seq<User>, conds: seq<Cond>)
    ensures Selects(p, users, ToQuery(conds).sql, ToQuery(conds).params)
        <==> forall c :: c in conds ==> Holds(p, c.kind, c.value)
  {
    if |conds| > 0 {
      var r := ToQuery(conds);
      var rest := ToQuery(conds[1..]);
      assert r.sql[1..] == rest.sql && r.params[1..] == rest.params && r.params[..1] == [conds[0].value];
      ToQuerySelects(p, users, conds[1..]);
      assert forall c :: c in conds <==> c == conds[0] || c in conds[1..];
    }
  }

  function Opt(on: bool, c: Cond): (r: seq<Cond>)
    ensures on ==> r == [c]
    ensures !on ==> r == []
  {
    if on then [c] else []
  }

  /** The four optional clauses after JavaScript has decided which of them
      are on: a clause is on when its value is truthy. */
  datatype FilterArgs = FilterArgs(onCategory: bool, category: string, onMin: bool, min: Option<int>,
                                   onMax: bool, max: Option<int>, onLocation: bool, location: string)

  /** The truthiness tests of the route: a string is truthy when non-empty,
      a number when non-zero, and `undefined` never. */
  function ArgsOf(category: Option<string>, minPrice: PriceArg, maxPrice: PriceArg, location: Option<string>): (a: FilterArgs)
    ensures a.onCategory <==> category.Some? && category.value != ""
    ensures a.onCategory ==> a.category == category.value
    ensures a.onLocation <==> location.Some? && location.value != ""
    ensures a.onLocation ==> a.location == location.value
    ensures minPrice.Sent? ==> (a.onMin <==> minPrice.text != "") && a.min == ParseInt(minPrice.text)
    ensures minPrice.Preset? ==> (a.onMin <==> minPrice.n != 0) && a.min == Some(minPrice.n)
    ensures minPrice.Unsent? ==> !a.onMin
    ensures maxPrice.Sent? ==> (a.onMax <==> maxPrice.text != "") && a.max == ParseInt(maxPrice.text)
    ensures maxPrice.Preset? ==> (a.onMax <==> maxPrice.n != 0) && a.max == Some(maxPrice.n)
    ensures maxPrice.Unsent? ==> !a.onMax
  {
    FilterArgs(Given(category), if category.Some? then category.value else "",
               PriceGiven(minPrice), PriceValue(minPrice),
               PriceGiven(maxPrice), PriceValue(maxPrice),
               Given(location), if location.Some? then location.value else "")
  }

  /** The optional clauses every product query appends: category, lowest
      price, highest price, location, in that order, each only when it is on. */
  function Filters(a: FilterArgs): seq<Cond>
  {
    Opt(a.onCategory, Cond(CategoryIs, PStr(a.category)))
    + Opt(a.onMin, Cond(PriceAtLeast, NumParam(a.min)))
    + Opt(a.onMax, Cond(PriceAtMost, NumParam(a.max)))
    + Opt(a.onLocation, Cond(LocationLike, PStr("%" + a.location + "%")))
  }

  /** The rows the clauses that are on let through: the same category, a
      price on the right side of each bound (a NaN bound lets nothing
      through), and a location containing the text. */
  predicate Admits(p: Product, a: FilterArgs)
  {
    && (a.onCategory ==> p.category == a.category)
    && (a.onMin ==> a.min.Some? && p.price >= a.min.value)
    && (a.onMax ==> a.max.Some? && p.price <= a.max.value)
    && (a.onLocation ==> p.location.Some? && Includes(p.location.value, a.location))
  }

  /** A run of optional clauses holds for a row exactly when each clause
      that is switched on holds for it. */
  lemma OptsHold(p: Product, pa: bool, a: Cond, pb: bool, b: Cond, pc: bool, c: Cond, pd: bool, d: Cond)
    ensures (forall x :: x in Opt(pa, a) + Opt(pb, b) + Opt(pc, c) + Opt(pd, d) ==> Holds(p, x.kind, x.value))
        <==> && (pa ==> Holds(p, a.kind, a.value))
             && (pb ==> Holds(p, b.kind, b.value))
             && (pc ==> Holds(p, c.kind, c.value))
             && (pd ==> Holds(p, d.kind, d.value))
  {
    var r := Opt(pa, a) + Opt(pb, b) + Opt(pc, c) + Opt(pd, d);
    assert forall x :: x in r <==> x in Opt(pa, a) || x in Opt(pb, b) || x in Opt(pc, c) || x in Opt(pd, d);
  }

  /** The clauses hold for a row exactly when it is one they admit. */
  lemma FiltersMeaning(p: Product, a: FilterArgs)
    ensures (forall c :: c in Filters(a) ==> Holds(p, c.kind, c.value)) <==> Admits(p, a)
  {
    OptsHold(p, a.onCategory, Cond(CategoryIs, PStr(a.category)), a.onMin, Cond(PriceAtLeast, NumParam(a.min)),
             a.onMax, Cond(PriceAtMost, NumParam(a.max)), a.onLocation, Cond(LocationLike, PStr("%" + a.location + "%")));
    if p.location.Some? {
      LikeContains(p.location.value, a.location);
    }
  }

  // ---------------------------------------------------------------------
  // the sort table

  const SortKeys: seq<string> := ["latest", "price_low", "price_high", "popular", "rating"]
  const SortTexts: seq<string> := ["p.created_at DESC", "p.price ASC", "p.price DESC", "p.view_count DESC", "p.rating DESC"]

  /** `allowedSorts[sort] || allowedSorts.latest`, looking at the table's own
      entries only. */
  function OrderBy(sort: string): (t: string)
    ensures t in SortTexts
    ensures forall k :: 0 <= k < |SortKeys| && SortKeys[k] == sort ==> t == SortTexts[k]
    ensures sort !in SortKeys ==> t == SortTexts[0]
  {
    if sort == "price_low" then "p.price ASC"
    else if sort == "price_high" then "p.price DESC"
    else if sort == "popular" then "p.view_count DESC"
    else if sort == "rating" then "p.rating DESC"
    else "p.created_at DESC"
  }

  lemma SortTextsHaveNoMarks(t: string)
    requires t in SortTexts
    ensures Marks(t) == 0
  {
    forall i | 0 <= i < |t| ensures t[i] != '?' {
    }
    MarksNone(t);
  }

  /** The names every object literal inherits from `Object.prototype`. */
  const PrototypeNames: seq<string> := [
    "constructor", "__proto__", "hasOwnProperty", "isPrototypeOf", "propertyIsEnumerable",
    "toLocaleString", "toString", "valueOf",
    "__defineGetter__", "__defineSetter__", "__lookupGetter__", "__lookupSetter__"]

  /** The text an inherited member turns into inside a template literal. */
  function InheritedText(name: string): string
  {
    if name == "constructor" then "function Object() { [native code] }"
    else if name == "__proto__" then "[object Object]"
    else "function " + name + "() { [native code] }"
  }

  /** The lookup as written: an inherited member is truthy and is used as
      the ORDER BY text. */
  function OrderByAsWritten(sort: string): (t: string)
    ensures sort !in PrototypeNames ==> t == OrderBy(sort)
    ensures sort in PrototypeNames ==> t == InheritedText(sort)
  {
    if sort in SortKeys then OrderBy(sort)
    else if sort in PrototypeNames then InheritedText(sort)
    else OrderBy(sort)
  }

  /** `?sort=constructor` puts text outside the table into the statement
      instead of falling back to the newest-first order. */
  lemma OrderByAsWrittenLeavesTable()
    ensures OrderByAsWritten("constructor") == "function Object() { [native code] }"
    ensures OrderByAsWritten("constructor") !in SortTexts
    ensures OrderBy("constructor") == "p.created_at DESC"
  {
    assert "constructor" in PrototypeNames;
    var t := "function Object() { [native code] }";
    assert t[0] == 'f';
    assert forall k :: 0 <= k < |SortTexts| ==> SortTexts[k][0] == 'p';
  }

  // ---------------------------------------------------------------------
  // the listing

  function Get(q: map<string, string>, k: string): (v: Option<string>)
    ensures v.Some? <==> k in q
    ensures v.Some? ==> v.value == q[k]
  {
    if k in q then Some(q[k]) else None
  }

  /** A price bound from the query string, or the destructuring default. */
  function PriceArgOf(q: map<string, string>, k: string, dflt: PriceArg): (a: PriceArg)
    ensures k in q ==> a == Sent(q[k])
    ensures k !in q ==> a == dflt
  {
    if k in q then Sent(q[k]) else dflt
  }

  /** `parseInt` of a paging argument, its default being a number. */
  function PageArg(q: map<string, string>, k: string, dflt: int): (v: Option<int>)
    ensures k in q ==> v == ParseInt(q[k])
    ensures k !in q ==> v == Some(dflt)
  {
    if k in q then ParseInt(q[k]) else Some(dflt)
  }

  /** `(parseInt(page) - 1) * parseInt(limit)`; None is NaN. */
  function Offset(page: Option<int>, limit: Option<int>): (o: Option<int>)
    ensures o.Some? <==> page.Some? && limit.Some?
    ensures o.Some? ==> o.value == (page.value - 1) * limit.value
  {
    if page.Some? && limit.Some? then Some((page.value - 1) * limit.value) else None
  }

  /** A whole statement: its opening fragment with the values it binds, the
      filter clauses, then the closing fragments with theirs. */
  function Statement(head: Fragment, hp: seq<SqlParam>, conds: seq<Cond>, tail: seq<Fragment>, tp: seq<SqlParam>): Query
  {
    Query([head] + ToQuery(conds).sql + tail, hp + ToQuery(conds).params + tp)
  }

  /** When the opening and closing parts bring one value per mark, so does
      the statement. */
  lemma StatementHoles(head: Fragment, hp: seq<SqlParam>, conds: seq<Cond>, tail: seq<Fragment>, tp: seq<SqlParam>)
    requires |hp| == Placeholders(head) && Holes(tail) == |tp|
    ensures var r := Statement(head, hp, conds, tail, tp); Holes(r.sql) == |r.params|
  {
    var f := ToQuery(conds);
    assert Holes([head]) == |hp|;
    HolesAppend([head], f.sql);
    HolesAppend([head] + f.sql, tail);
  }

  /** Such a statement selects what its three parts select. */
  lemma StatementSelects(p: Product, users: seq<User>, head: Fragment, hp: seq<SqlParam>, conds: seq<Cond>,
                         tail: seq<Fragment>, tp: seq<SqlParam>)
    requires |hp| == Placeholders(head) && Holes(tail) == |tp|
    ensures var r := Statement(head, hp, conds, tail, tp);
      Selects(p, users, r.sql, r.params) <==>
        && FragmentHolds(p, users, head, hp)
        && (forall c :: c in conds ==> Holds(p, c.kind, c.value))
        && Selects(p, users, tail, tp)
  {
    var f := ToQuery(conds);
    assert Holes([head]) == |hp|;
    HolesAppend([head], f.sql);
    HolesAppend([head] + f.sql, tail);
    SelectsAppend(p, users, [head] + f.sql, tail, hp + f.params, tp);
    SelectsAppend(p, users, [head], f.sql, hp, f.params);
    assert Selects(p, users, [head], hp) <==> FragmentHolds(p, users, head, hp) by {
      assert hp[..|hp|] == hp && [head][1..] == [];
    }
    ToQuerySelects(p, users, conds);
  }

  /** The filter arguments of the listing and its count: `minPrice`
      defaults to 0, which is falsy, and `maxPrice` to 999999999, which is
      not, so an absent `maxPrice` still bounds the price. */
  function ListingArgs(q: map<string, string>): (a: FilterArgs)
    ensures "minPrice" !in q ==> !a.onMin
    ensures "maxPrice" !in q ==> a.onMax && a.max == Some(999999999)
    ensures "minPrice" in q ==> (a.onMin <==> q["minPrice"] != "") && a.min == ParseInt(q["minPrice"])
    ensures "maxPrice" in q ==> (a.onMax <==> q["maxPrice"] != "") && a.max == ParseInt(q["maxPrice"])
    ensures a.onCategory <==> "category" in q && q["category"] != ""
    ensures a.onLocation <==> "location" in q && q["location"] != ""
  {
    ArgsOf(Get(q, "category"), PriceArgOf(q, "minPrice", Preset(0)), PriceArgOf(q, "maxPrice", Preset(999999999)),
           Get(q, "location"))
  }

  /** `page` and `limit` after `parseInt`, defaulting to 1 and 20. */
  datatype Paging = Paging(page: Option<int>, limit: Option<int>)

  function PagingOf(q: map<string, string>): Paging
  {
    Paging(PageArg(q, "page", 1), PageArg(q, "limit", 20))
  }

  /** MySQL takes LIMIT and OFFSET values only as whole numbers not below
      zero: a limit that does not parse or is negative, or a page below 1
      with a positive limit, makes the statement fail. */
  predicate PageBindable(pg: Paging)
  {
    && pg.limit.Some? && pg.limit.value >= 0
    && Offset(pg.page, pg.limit).Some? && Offset(pg.page, pg.limit).value >= 0
  }

  /** The LIMIT and OFFSET values. */
  function PageParams(pg: Paging): seq<SqlParam>
  {
    [NumParam(pg.limit), NumParam(Offset(pg.page, pg.limit))]
  }

  /** What the listing route reads from its query string. */
  datatype ListingRequest = ListingRequest(filters: FilterArgs, sort: string, paging: Paging)

  /** The query string decoded; `sort` defaults to `latest`. */
  function ListingRequestOf(q: map<string, string>): (r: ListingRequest)
    ensures r.filters == ListingArgs(q) && r.paging == PagingOf(q)
    ensures "sort" !in q ==> OrderBy(r.sort) == "p.created_at DESC"
    ensures "sort" in q ==> r.sort == q["sort"]
  {
    ListingRequest(ListingArgs(q), if "sort" in q then q["sort"] else "latest", PagingOf(q))
  }

  /** The listing statement: the join, the clauses that are on, then the
      order taken from the sort table and the page. */
  function ListingQuery(r: ListingRequest): (s: Query)
    ensures Holes(s.sql) == |s.params|
    ensures |s.sql| >= 2 && s.sql[0] == ListingSelect && s.sql[|s.sql| - 1] == OrderPage(OrderBy(r.sort))
    ensures s.sql[|s.sql| - 1].orderBy in SortTexts
    ensures |s.params| >= 2 && s.params[|s.params| - 2..] == PageParams(r.paging)
  {
    OrderByHasNoMarks(r.sort);
    Closed(ListingSelect, [], Filters(r.filters), OrderPage(OrderBy(r.sort)), PageParams(r.paging))
  }

  /** A statement closed by one fragment that binds the two paging values. */
  function Closed(head: Fragment, hp: seq<SqlParam>, conds: seq<Cond>, close: Fragment, pp: seq<SqlParam>): (s: Query)
    requires |hp| == Placeholders(head) && Placeholders(close) == 2 && |pp| == 2
    ensures Holes(s.sql) == |s.params|
    ensures |s.sql| >= 2 && s.sql[0] == head && s.sql[|s.sql| - 1] == close
    ensures |s.params| >= 2 && s.params[..|hp|] == hp && s.params[|s.params| - 2..] == pp
  {
    assert Holes([close]) == 2;
    StatementHoles(head, hp, conds, [close], pp);
    Statement(head, hp, conds, [close], pp)
  }

  /** Such a statement selects what its head and its clauses select. */
  lemma ClosedSelects(p: Product, users: seq<User>, head: Fragment, hp: seq<SqlParam>, conds: seq<Cond>,
                      close: Fragment, pp: seq<SqlParam>)
    requires |hp| == Placeholders(head) && Placeholders(close) == 2 && |pp| == 2
    requires close.OrderPage? || close.RelevancePage?
    ensures var s := Closed(head, hp, conds, close, pp);
      Selects(p, users, s.sql, s.params) <==>
        FragmentHolds(p, users, head, hp) && forall c :: c in conds ==> Holds(p, c.kind, c.value)
  {
    assert Holes([close]) == 2;
    StatementSelects(p, users, head, hp, conds, [close], pp);
    assert Selects(p, users, [close], pp) by {
      assert pp[..2] == pp && pp[2..] == [] && [close][1..] == [];
    }
  }

  /** Every ORDER BY text the table yields binds no value of its own. */
  lemma OrderByHasNoMarks(sort: string)
    ensures Placeholders(OrderPage(OrderBy(sort))) == 2
  {
    SortTextsHaveNoMarks(OrderBy(sort));
  }


  /** The count statement: the same clauses with the same values, without
      the join, the order and the page. */
  function CountQuery(r: ListingRequest): (s: Query)
    ensures Holes(s.sql) == |s.params|
    ensures s.params == ListingQuery(r).params[..|ListingQuery(r).params| - 2]
  {
    var f := ToQuery(Filters(r.filters));
    ListingParams(r);
    StatementHoles(CountSelect, [], Filters(r.filters), [], []);
    var s := Statement(CountSelect, [], Filters(r.filters), [], []);
    assert s.params == f.params;
    s
  }

  /** The listing binds the clauses' values, then the page's two. */
  lemma ListingParams(r: ListingRequest)
    ensures ListingQuery(r).params == ToQuery(Filters(r.filters)).params + PageParams(r.paging)
  {
    var f := ToQuery(Filters(r.filters));
    assert [] + f.params + PageParams(r.paging) == f.params + PageParams(r.paging);
  }

  /** The rows the listing selects: active, with a seller row, and admitted
      by each clause that is on. */
  lemma ListingSelectsMeaning(p: Product, users: seq<User>, r: ListingRequest)
    ensures Selects(p, users, ListingQuery(r).sql, ListingQuery(r).params) <==>
      p.status == Active && HasSeller(users, p) && Admits(p, r.filters)
  {
    OrderByHasNoMarks(r.sort);
    ClosedSelects(p, users, ListingSelect, [], Filters(r.filters), OrderPage(OrderBy(r.sort)), PageParams(r.paging));
    FiltersMeaning(p, r.filters);
  }


  /** The rows the count counts: active and admitted by each clause that is
      on, whether or not the seller row exists. */
  lemma CountSelectsMeaning(p: Product, users: seq<User>, r: ListingRequest)
    ensures Selects(p, users, CountQuery(r).sql, CountQuery(r).params) <==>
      p.status == Active && Admits(p, r.filters)
  {
    StatementSelects(p, users, CountSelect, [], Filters(r.filters), [], []);
    FiltersMeaning(p, r.filters);
  }

  /** The count agrees with the listing on every row whose seller exists,
      which the foreign key on `seller_id` guarantees. */
  lemma CountAgreesWithListing(p: Product, users: seq<User>, r: ListingRequest)
    requires HasSeller(users, p)
    ensures Selects(p, users, CountQuery(r).sql, CountQuery(r).params)
        <==> Selects(p, users, ListingQuery(r).sql, ListingQuery(r).params)
  {
    ListingSelectsMeaning(p, users, r);
    CountSelectsMeaning(p, users, r);
  }

  // ---------------------------------------------------------------------
  // pagination

  /** `Math.ceil(a / b)` for integers. */
  function CeilDiv(a: int, b: int): (r: int)
    requires b != 0
    ensures b > 0 ==> (r - 1) * b < a <= r * b
    ensures b < 0 ==> r * b <= a < (r - 1) * b
  {
    if b > 0 then -((-a) / b) else -(a / (-b))
  }

  /** `Math.ceil(total / parseInt(limit))`; None where JavaScript gets NaN or
      an infinity, which JSON sends as `null`. */
  function TotalPages(total: nat, limit: Option<int>): (r: Option<int>)
    ensures r.Some? <==> limit.Some? && limit.value != 0
    ensures r.Some? && limit.value > 0 ==> r.value >= 0 && (r.value - 1) * limit.value < total <= r.value * limit.value
  {
    if limit.None? || limit.value == 0 then None else Some(CeilDiv(total, limit.value))
  }

  datatype Pagination = Pagination(page: Option<int>, limit: Option<int>, total: nat, totalPages: Option<int>)

  /** The listing's answer: the two statements and the pagination block.
      `total` is what the count statement counts in the table. */
  datatype Listing = Listing(query: Query, count: Query, pagination: Pagination)

  /** The listing route's answer: the listing, or the 500 of the catch when
      the statement fails. */
  datatype ListAnswer = Listed(listing: Listing) | ListFailed(status: nat)

  /** `GET /`: the listing statement runs first, so paging values MySQL
      refuses make it throw and the route answers 500. */
  function ListProducts(db: Db, q: map<string, string>): (r: ListAnswer)
    ensures r.ListFailed? <==> !PageBindable(PagingOf(q))
    ensures r.ListFailed? ==> r.status == 500
    ensures r.Listed? ==>
      var l := r.listing;
      && l.query == ListingQuery(ListingRequestOf(q)) && l.count == CountQuery(ListingRequestOf(q))
      && l.pagination.total == |Filter(db.products, (p: Product) => Selects(p, db.users, l.count.sql, l.count.params))|
      && l.pagination.page == PagingOf(q).page && l.pagination.limit == PagingOf(q).limit
      && l.pagination.totalPages == TotalPages(l.pagination.total, l.pagination.limit)
  {
    var req := ListingRequestOf(q);
    if !PageBindable(req.paging) then ListFailed(500)
    else
      var count := CountQuery(req);
      var total := |Filter(db.products, (p: Product) => Selects(p, db.users, count.sql, count.params))|;
      Listed(Listing(ListingQuery(req), count,
                     Pagination(req.paging.page, req.paging.limit, total, TotalPages(total, req.paging.limit))))
  }

  /** A page below 1, or a negative limit, fails the listing with 500 even
      though the rest of the query is fine. */
  lemma BadPagingFails(db: Db, q: map<string, string>, page: int, limit: int)
    requires PagingOf(q) == Paging(Some(page), Some(limit))
    requires limit < 0 || (page < 1 && limit > 0)
    ensures ListProducts(db, q) == ListFailed(500)
  {
    Unbindable(page, limit);
    var r := ListProducts(db, q);
    assert r.ListFailed? && r.status == 500;
  }

  lemma Unbindable(page: int, limit: int)
    requires limit < 0 || (page < 1 && limit > 0)
    ensures !PageBindable(Paging(Some(page), Some(limit)))
  {
    if limit > 0 {
      MulMono(page - 1, -1, limit);
    }
  }

  /** The total is the number of active products the filters admit. */
  lemma ListProductsCounts(db: Db, q: map<string, string>)
    ensures ListProducts(db, q).Listed? ==>
      ListProducts(db, q).listing.pagination.total
        == |Filter(db.products, (p: Product) => p.status == Active && Admits(p, ListingArgs(q)))|
  {
    var req := ListingRequestOf(q);
    var count := CountQuery(req);
    forall p | p in db.products
      ensures Selects(p, db.users, count.sql, count.params) <==> p.status == Active && Admits(p, ListingArgs(q))
    {
      CountSelectsMeaning(p, db.users, req);
    }
    FilterSame(db.products, (p: Product) => Selects(p, db.users, count.sql, count.params),
               (p: Product) => p.status == Active && Admits(p, ListingArgs(q)));
  }

  /** With a positive limit the pages `1..totalPages` cover every counted
      row: row `i` (from zero) falls on page `i / limit + 1`, between that
      page's offset and the next. */
  lemma PagesCoverRows(total: nat, limit: int, i: int)
    requires limit > 0 && 0 <= i < total
    ensures var page := i / limit + 1;
      && 1 <= page <= TotalPages(total, Some(limit)).value
      && Offset(Some(page), Some(limit)).value <= i < Offset(Some(page), Some(limit)).value + limit
  {
    var page := i / limit + 1;
    var n := TotalPages(total, Some(limit)).value;
    assert i == (i / limit) * limit + i % limit;
    assert (page - 1) * limit <= i < (page - 1) * limit + limit;
    assert (n - 1) * limit < total <= n * limit;
    if page > n {
      MulMono(n, page - 1, limit);
      assert false;
    }
  }

  lemma MulMono(a: int, b: int, c: int)
    requires a <= b && c > 0
    ensures a * c <= b * c
  {
  }

  // ---------------------------------------------------------------------
  // search

  datatype Search = SearchRefused(status: nat) | SearchQuery(query: Query)

  /** The filter arguments of a search: no defaults, so an absent price
      bound yields no clause. */
  function SearchArgs(q: map<string, string>): (a: FilterArgs)
    ensures "minPrice" !in q ==> !a.onMin
    ensures "maxPrice" !in q ==> !a.onMax
    ensures "minPrice" in q ==> (a.onMin <==> q["minPrice"] != "") && a.min == ParseInt(q["minPrice"])
    ensures "maxPrice" in q ==> (a.onMax <==> q["maxPrice"] != "") && a.max == ParseInt(q["maxPrice"])
    ensures a.onCategory <==> "category" in q && q["category"] != ""
    ensures a.onLocation <==> "location" in q && q["location"] != ""
  {
    ArgsOf(Get(q, "category"), PriceArgOf(q, "minPrice", Unsent), PriceArgOf(q, "maxPrice", Unsent), Get(q, "location"))
  }

  /** The search statement for a text: the raw text feeds the relevance
      score, the trimmed text the two LIKE patterns. */
  function SearchStatement(text: string, a: FilterArgs, pg: Paging): (s: Query)
    ensures Holes(s.sql) == |s.params|
    ensures |s.sql| >= 2 && s.sql[0] == SearchSelect && s.sql[|s.sql| - 1] == RelevancePage
    ensures |s.params| >= 3
      && s.params[..3] == [PStr(text), PStr("%" + Trim(text) + "%"), PStr("%" + Trim(text) + "%")]
  {
    var like := "%" + Trim(text) + "%";
    Closed(SearchSelect, [PStr(text), PStr(like), PStr(like)], Filters(a), RelevancePage, PageParams(pg))
  }


  /** The search route: a missing or blank `q` is refused with 400 before any
      statement is built; the filters have no defaults here and `limit` is
      not bounded from above. Paging values MySQL refuses make the statement
      throw, and the catch answers 500. */
  function SearchProducts(q: map<string, string>): (r: Search)
    ensures r.SearchRefused? <==> "q" !in q || Trim(q["q"]) == "" || !PageBindable(PagingOf(q))
    ensures ("q" !in q || Trim(q["q"]) == "") ==> r == SearchRefused(400)
    ensures "q" in q && Trim(q["q"]) != "" && !PageBindable(PagingOf(q)) ==> r == SearchRefused(500)
    ensures r.SearchQuery? ==> r.query == SearchStatement(q["q"], SearchArgs(q), PagingOf(q))
  {
    if "q" !in q || Trim(q["q"]) == "" then SearchRefused(400)
    else if !PageBindable(PagingOf(q)) then SearchRefused(500)
    else SearchQuery(SearchStatement(q["q"], SearchArgs(q), PagingOf(q)))
  }

  /** The rows a search selects: active, with a seller row, the trimmed text
      inside the title or the description, and admitted by each clause that
      is on. */
  lemma SearchSelectsMeaning(p: Product, users: seq<User>, text: string, a: FilterArgs, pg: Paging)
    ensures var s := SearchStatement(text, a, pg);
      Selects(p, users, s.sql, s.params) <==>
        && p.status == Active && HasSeller(users, p)
        && (Includes(p.title, Trim(text)) || Includes(p.description, Trim(text)))
        && Admits(p, a)
  {
    var like := "%" + Trim(text) + "%";
    ClosedSelects(p, users, SearchSelect, [PStr(text), PStr(like), PStr(like)], Filters(a), RelevancePage, PageParams(pg));
    SearchHeadMeaning(p, users, text);
    FiltersMeaning(p, a);
  }

  /** The search head asks for an active row with a seller and the trimmed
      text in its title or description. */
  lemma SearchHeadMeaning(p: Product, users: seq<User>, text: string)
    ensures var like := "%" + Trim(text) + "%";
      FragmentHolds(p, users, SearchSelect, [PStr(text), PStr(like), PStr(like)]) <==>
        && p.status == Active && HasSeller(users, p)
        && (Includes(p.title, Trim(text)) || Includes(p.description, Trim(text)))
  {
    LikeContains(p.title, Trim(text));
    LikeContains(p.description, Trim(text));
  }

}
