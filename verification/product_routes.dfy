/** The product routes that read or change one product: detail by id,
    creation, update and soft deletion. Creation and changes run behind the
    bearer-token middleware and the product schema; update and deletion are
    allowed to the seller and to admins only. */
module ProductRoutes {
  import opened Basics
  import opened Text
  import opened Http
  import opened Store
  import opened Validation
  import opened Security
  import opened AuthMiddleware
  import opened ProductQuery

  // ---------------------------------------------------------------------
  // product ids

  predicate AllHex(s: string)
  {
    forall i :: 0 <= i < |s| ==> IsHexDigit(s[i])
  }

  /** What the id pattern asks of the character at position `i`: dashes
      between the groups, the version digit `4`, a variant digit among
      `8 9 a b`, and hex digits elsewhere, letters in either case. */
  predicate UuidCharOk(i: int, c: char)
  {
    if i == 8 || i == 13 || i == 18 || i == 23 then c == '-'
    else if i == 14 then c == '4'
    else if i == 19 then c in "89abAB"
    else IsHexDigit(c)
  }

  /** The case-insensitive version-4 UUID pattern of the detail route. */
  predicate IsUuidV4(s: string)
  {
    |s| == 36 && forall i :: 0 <= i < |s| ==> UuidCharOk(i, s[i])
  }

  /** A version-4 UUID written from its five groups: the version digit and
      the variant digit are fixed or chosen, the rest are the given digits. */
  function FormatUuid(a: string, b: string, c: string, v: char, d: string, e: string): string
  {
    a + "-" + b + "-4" + c + "-" + [v] + d + "-" + e
  }

  /** Every string written from hex groups of the right lengths and a variant
      digit matches the pattern. */
  lemma FormatUuidIsV4(a: string, b: string, c: string, v: char, d: string, e: string)
    requires |a| == 8 && |b| == 4 && |c| == 3 && |d| == 3 && |e| == 12
    requires AllHex(a) && AllHex(b) && AllHex(c) && AllHex(d) && AllHex(e)
    requires v in "89abAB"
    ensures IsUuidV4(FormatUuid(a, b, c, v, d, e))
  {
    var s := FormatUuid(a, b, c, v, d, e);
    assert |s| == 36;
    forall i | 0 <= i < 36
      ensures UuidCharOk(i, s[i])
    {
      if i < 8 { assert s[i] == a[i]; }
      else if i == 8 { assert s[i] == '-'; }
      else if i < 13 { assert s[i] == b[i - 9]; }
      else if i == 13 { assert s[i] == '-'; }
      else if i == 14 { assert s[i] == '4'; }
      else if i < 18 { assert s[i] == c[i - 15]; }
      else if i == 18 { assert s[i] == '-'; }
      else if i == 19 { assert s[i] == v; }
      else if i < 23 { assert s[i] == d[i - 20]; }
      else if i == 23 { assert s[i] == '-'; }
      else { assert s[i] == e[i - 24]; }
    }
  }

  /** Conversely, every string the pattern accepts is written that way from
      its own groups. */
  lemma UuidV4Groups(s: string)
    requires IsUuidV4(s)
    ensures AllHex(s[..8]) && AllHex(s[9..13]) && AllHex(s[15..18])
    ensures AllHex(s[20..23]) && AllHex(s[24..]) && s[19] in "89abAB"
    ensures s == FormatUuid(s[..8], s[9..13], s[15..18], s[19], s[20..23], s[24..])
  {
    assert UuidCharOk(19, s[19]);
    forall i | 0 <= i < 8 ensures IsHexDigit(s[..8][i]) { assert UuidCharOk(i, s[i]); }
    forall i | 0 <= i < 4 ensures IsHexDigit(s[9..13][i]) { assert UuidCharOk(i + 9, s[i + 9]); }
    forall i | 0 <= i < 3 ensures IsHexDigit(s[15..18][i]) { assert UuidCharOk(i + 15, s[i + 15]); }
    forall i | 0 <= i < 3 ensures IsHexDigit(s[20..23][i]) { assert UuidCharOk(i + 20, s[i + 20]); }
    forall i | 0 <= i < 12 ensures IsHexDigit(s[24..][i]) { assert UuidCharOk(i + 24, s[i + 24]); }
    var t := FormatUuid(s[..8], s[9..13], s[15..18], s[19], s[20..23], s[24..]);
    assert |t| == 36;
    forall i | 0 <= i < 36
      ensures t[i] == s[i]
    {
      if i == 8 || i == 13 || i == 14 || i == 18 || i == 23 {
        assert UuidCharOk(i, s[i]);
      }
    }
  }

  // ---------------------------------------------------------------------
  // the rows a route changes

  /** No two product rows share an id (the primary key). */
  predicate UniqueProductIds(products: seq<Product>)
  {
    forall i, j :: 0 <= i < j < |products| ==> products[i].id != products[j].id
  }

  /** `UPDATE products SET ... WHERE id = ?`: `change` applied to every row
      with that id, every other row as it was. */
  function UpdateWhere(products: seq<Product>, id: Id, change: Product -> Product): (r: seq<Product>)
    ensures |r| == |products|
    ensures forall i :: 0 <= i < |products| ==>
      r[i] == (if products[i].id == id then change(products[i]) else products[i])
  {
    if |products| == 0 then []
    else
      [if products[0].id == id then change(products[0]) else products[0]]
        + UpdateWhere(products[1..], id, change)
  }

  /** What a route answers besides its status and message. */
  datatype Shown = NoProduct | ProductView(product: Product, sellerName: string) | NewId(id: Id)

  datatype ProductAnswer = ProductAnswer(db: Db, reply: Reply, data: Shown)

  // ---------------------------------------------------------------------
  // detail

  function CountView(p: Product): Product
  {
    p.(viewCount := p.viewCount + 1)
  }

  /** `GET /:id`: a malformed id is refused before the database is asked; a
      product whose seller row is gone is not found (an inner join); the
      answer shows the row as read, before its view count goes up. The
      status is not looked at, so a deleted product is still shown. */
  function ProductDetail(db: Db, id: string): (r: ProductAnswer)
    ensures !IsUuidV4(id) ==> r == ProductAnswer(db, Reply(400, InvalidProductId), NoProduct)
    ensures r.reply.status == 200 <==>
      IsUuidV4(id) && exists p :: p in db.products && p.id == id && HasSeller(db.users, p)
    ensures IsUuidV4(id) && r.reply.status != 200 ==>
      r == ProductAnswer(db, Reply(404, ProductNotFound), NoProduct)
    ensures r.reply.status == 200 ==>
      && r.reply.message == NoMessage
      && r.data.ProductView? && r.data.product in db.products && r.data.product.id == id
      && HasSeller(db.users, r.data.product)
      && r.data.sellerName == UserById(db.users, r.data.product.sellerId).value.username
      && r.db == db.(products := UpdateWhere(db.products, id, CountView))
  {
    if !IsUuidV4(id) then ProductAnswer(db, Reply(400, InvalidProductId), NoProduct)
    else
      match First(db.products, (p: Product) => p.id == id && HasSeller(db.users, p))
      case None => ProductAnswer(db, Reply(404, ProductNotFound), NoProduct)
      case Some(p) =>
        ProductAnswer(
          db.(products := UpdateWhere(db.products, id, CountView)),
          Reply(200, NoMessage),
          ProductView(p, UserById(db.users, p.sellerId).value.username))
  }

  /** Viewing a product counts one view on its row and changes nothing else. */
  lemma DetailCountsView(db: Db, id: string, i: int)
    requires ProductDetail(db, id).reply.status == 200
    requires 0 <= i < |db.products|
    ensures var after := ProductDetail(db, id).db.products;
      |after| == |db.products|
      && after[i].viewCount == db.products[i].viewCount + (if db.products[i].id == id then 1 else 0)
      && after[i].(viewCount := db.products[i].viewCount) == db.products[i]
  {
  }

  /** With unique ids, the detail of an existing product with a seller shows
      that very row, whatever its status. */
  lemma DetailShowsRow(db: Db, k: int)
    requires UniqueProductIds(db.products)
    requires 0 <= k < |db.products| && IsUuidV4(db.products[k].id) && HasSeller(db.users, db.products[k])
    ensures ProductDetail(db, db.products[k].id).reply == Reply(200, NoMessage)
    ensures ProductDetail(db, db.products[k].id).data.product == db.products[k]
  {
    var id := db.products[k].id;
    var i := FirstIndex(db.products, (p: Product) => p.id == id && HasSeller(db.users, p)).value;
    assert db.products[i].id == id;
    assert i == k;
  }

  // ---------------------------------------------------------------------
  // the fields a validated body sets

  /** The eight columns the create and update statements bind. */
  datatype Draft = Draft(
    title: string,
    description: string,
    price: int,
    category: string,
    stock: int,
    location: Option<string>,
    isNegotiable: bool,
    condition: Option<string>)

  /** A whole-number field, or `dflt` when the body has none. */
  function WholeOf(v: map<string, Json>, k: string, dflt: int): int
  {
    if k in v && v[k].JNum? then v[k].x.Floor else dflt
  }

  function FlagOf(v: map<string, Json>, k: string, dflt: bool): bool
  {
    if k in v && v[k].JBool? then v[k].b else dflt
  }

  /** How a nullable text column reads back as JSON. */
  function ColumnJson(c: Option<string>): Json
  {
    if c.Some? then JStr(c.value) else JNull
  }

  /** A nullable text column: a string is stored as is and `null` as NULL. A
      field missing from the body never reaches the column: see `Bindable`. */
  function NullableText(v: map<string, Json>, k: string): (c: Option<string>)
    ensures k in v && (v[k].JStr? || v[k].JNull?) ==> ColumnJson(c) == v[k]
  {
    if k in v && v[k].JStr? then Some(v[k].s) else None
  }

  /** Whether the create and update statements can bind the body. The schema
      gives `location` and `condition_status` no default, so a body without
      them leaves `undefined` among the parameters, and the driver's
      `execute` throws on an undefined parameter instead of binding NULL. */
  predicate Bindable(v: map<string, Json>)
  {
    "location" in v && "condition_status" in v
  }

  /** The columns read from a validated body, with the create handler's
      fallbacks `stock = 1` and `is_negotiable = false`. */
  function DraftOf(v: map<string, Json>): (d: Draft)
    ensures "title" in v && v["title"].JStr? ==> d.title == v["title"].s
    ensures "stock" in v && v["stock"].JNum? ==> d.stock == v["stock"].x.Floor
    ensures "location" in v && (v["location"].JStr? || v["location"].JNull?) ==>
      ColumnJson(d.location) == v["location"]
    ensures "condition_status" in v && (v["condition_status"].JStr? || v["condition_status"].JNull?) ==>
      ColumnJson(d.condition) == v["condition_status"]
  {
    Draft(StrOf(v, "title"), StrOf(v, "description"), WholeOf(v, "price", 0), StrOf(v, "category"),
          WholeOf(v, "stock", 1), NullableText(v, "location"), FlagOf(v, "is_negotiable", false),
          NullableText(v, "condition_status"))
  }

  /** The columns of a stored row that a body can set. */
  function DraftIn(p: Product): Draft
  {
    Draft(p.title, p.description, p.price, p.category, p.stock, p.location, p.isNegotiable, p.condition)
  }

  /** The row `INSERT INTO products` creates: the database defaults give an
      active row with no views. */
  function NewRow(id: Id, sellerId: Id, d: Draft): (p: Product)
    ensures p.id == id && p.sellerId == sellerId && p.status == Active && p.viewCount == 0
  {
    Product(id, d.title, d.description, d.price, d.category, sellerId, d.stock, d.location,
            d.isNegotiable, d.condition, Active, 0)
  }

  /** `UPDATE products SET <the eight columns>`. */
  function Rewrite(d: Draft): Product -> Product
  {
    (p: Product) => p.(title := d.title, description := d.description, price := d.price,
                       category := d.category, stock := d.stock, location := d.location,
                       isNegotiable := d.isNegotiable, condition := d.condition)
  }

  /** A created row holds the draft it was made from. */
  lemma NewRowHoldsDraft(id: Id, sellerId: Id, d: Draft)
    ensures DraftIn(NewRow(id, sellerId, d)) == d
  {
  }

  /** A rewritten row holds the new draft and keeps its id, seller, status
      and view count; rewriting a row with its own draft changes nothing. */
  lemma RewriteHoldsDraft(p: Product, d: Draft)
    ensures DraftIn(Rewrite(d)(p)) == d
    ensures var q := Rewrite(d)(p);
      q.id == p.id && q.sellerId == p.sellerId && q.status == p.status && q.viewCount == p.viewCount
    ensures Rewrite(DraftIn(p))(p) == p
  {
  }

  /** The schema's output for a product body: each declared field as sent,
      and the defaults of `stock` and `is_negotiable` when they are absent. */
  lemma ProductOutput(body: map<string, Json>)
    ensures var v := Output(ProductSchema, body);
      && ("title" in body ==> "title" in v && v["title"] == body["title"])
      && ("description" in body ==> "description" in v && v["description"] == body["description"])
      && ("price" in body ==> "price" in v && v["price"] == body["price"])
      && ("category" in body ==> "category" in v && v["category"] == body["category"])
      && "stock" in v && v["stock"] == (if "stock" in body then body["stock"] else JNum(1.0))
      && ("location" in v <==> "location" in body)
      && ("location" in body ==> v["location"] == body["location"])
      && ("condition_status" in v <==> "condition_status" in body)
      && ("condition_status" in body ==> v["condition_status"] == body["condition_status"])
  {
    ProductOutputSent(body);
    ProductOutputStock(body);
    ProductOutputNullable(body);
  }

  /** The four required fields pass through as sent. */
  lemma ProductOutputSent(body: map<string, Json>)
    ensures var v := Output(ProductSchema, body);
      && ("title" in body ==> "title" in v && v["title"] == body["title"])
      && ("description" in body ==> "description" in v && v["description"] == body["description"])
      && ("price" in body ==> "price" in v && v["price"] == body["price"])
      && ("category" in body ==> "category" in v && v["category"] == body["category"])
  {
    ProductNamesDistinct();
    OutputAt(ProductSchema, body, 0);
    OutputAt(ProductSchema, body, 1);
    OutputAt(ProductSchema, body, 2);
    OutputAt(ProductSchema, body, 3);
  }

  lemma ProductOutputStock(body: map<string, Json>)
    ensures var v := Output(ProductSchema, body);
      "stock" in v && v["stock"] == (if "stock" in body then body["stock"] else JNum(1.0))
  {
    ProductNamesDistinct();
    OutputAt(ProductSchema, body, 4);
  }

  /** The two fields without a default are present exactly when sent. */
  lemma ProductOutputNullable(body: map<string, Json>)
    ensures var v := Output(ProductSchema, body);
      && ("location" in v <==> "location" in body)
      && ("location" in body ==> v["location"] == body["location"])
      && ("condition_status" in v <==> "condition_status" in body)
      && ("condition_status" in body ==> v["condition_status"] == body["condition_status"])
  {
    ProductNamesDistinct();
    OutputAt(ProductSchema, body, 5);
    OutputAt(ProductSchema, body, 7);
  }

  lemma ProductOutputFlag(body: map<string, Json>)
    ensures var v := Output(ProductSchema, body);
      && "is_negotiable" in v
      && v["is_negotiable"] == (if "is_negotiable" in body then body["is_negotiable"] else JBool(false))
  {
    ProductNamesDistinct();
    OutputAt(ProductSchema, body, 6);
  }

  /** One field of a schema's output, for a schema whose names are distinct. */
  lemma OutputAt(schema: Schema, b: map<string, Json>, k: int)
    requires DistinctNames(schema) && 0 <= k < |schema|
    ensures var n := schema[k].name; var out := Output(schema, b);
      && (n in b ==> n in out && out[n] == b[n])
      && (n !in b ==> (n in out <==> DefaultOf(schema[k].rule).Some?))
      && (n !in b && n in out ==> out[n] == DefaultOf(schema[k].rule).value)
  {
    assert Declares(schema, schema[k].name);
  }

  lemma ProductNamesDistinct()
    ensures DistinctNames(ProductSchema)
  {
  }

  /** The validated body can be bound exactly when the body as sent has
      both nullable columns: the schema adds neither. */
  lemma BindableOutput(body: map<string, Json>)
    ensures Bindable(Output(ProductSchema, body)) <==> Bindable(body)
  {
    ProductNamesDistinct();
    OutputAt(ProductSchema, body, 5);
    OutputAt(ProductSchema, body, 7);
  }

  /** The columns a validated body sets, in terms of the body as sent. */
  lemma DraftOfOutput(body: map<string, Json>)
    requires ProductOk(body)
    ensures Bindable(Output(ProductSchema, body)) <==> Bindable(body)
    ensures var d := DraftOf(Output(ProductSchema, body));
      && d.title == body["title"].s && d.description == body["description"].s
      && d.price == body["price"].x.Floor && d.category == body["category"].s
      && d.stock == (if "stock" in body then body["stock"].x.Floor else 1)
      && d.isNegotiable == (if "is_negotiable" in body then body["is_negotiable"].b else false)
      && d.location == (if "location" in body && body["location"].JStr? then Some(body["location"].s) else None)
      && d.condition == (if "condition_status" in body && body["condition_status"].JStr?
                         then Some(body["condition_status"].s) else None)
  {
    ProductOutput(body);
    ProductOutputFlag(body);
    BindableOutput(body);
  }

  // ---------------------------------------------------------------------
  // creation

  /** The create handler: a fresh row for the caller, whatever seller the
      body might name. A body the insert cannot bind makes the transaction
      throw; it is rolled back and answered with 500. */
  function CreateProduct(db: Db, user: User, v: map<string, Json>, id: Id): (r: ProductAnswer)
    ensures r.reply.status == 201 <==> Bindable(v)
    ensures !Bindable(v) ==> r == ProductAnswer(db, Reply(500, ServerError), NoProduct)
    ensures Bindable(v) ==>
      && r.reply == Reply(201, ProductCreated) && r.data == NewId(id)
      && r.db == db.(products := r.db.products)
      && |r.db.products| == |db.products| + 1 && r.db.products[..|db.products|] == db.products
      && var p := r.db.products[|db.products|];
         p.id == id && p.sellerId == user.id && p.status == Active && p.viewCount == 0
         && DraftIn(p) == DraftOf(v)
  {
    if !Bindable(v) then ProductAnswer(db, Reply(500, ServerError), NoProduct)
    else
      var p := NewRow(id, user.id, DraftOf(v));
      NewRowHoldsDraft(id, user.id, DraftOf(v));
      ProductAnswer(db.(products := db.products + [p]), Reply(201, ProductCreated), NewId(id))
  }

  /** `POST /`: token, then schema, then the handler. */
  function CreateRoute(db: Db, header: Option<string>, verify: string -> Verdict, now: int,
                       body: map<string, Json>, f: Formats, id: Id): (r: ProductAnswer)
    ensures Authenticate(db, header, verify, now).Rejected? ==>
      r == ProductAnswer(db, Authenticate(db, header, verify, now).reply, NoProduct)
    ensures Authenticate(db, header, verify, now).Authorized? ==>
      (r.reply.status == 201 <==> ProductOk(body) && Bindable(body))
    ensures Authenticate(db, header, verify, now).Authorized? && !ProductOk(body) ==>
      r == ProductAnswer(db, Reply(400, InvalidInput), NoProduct)
    ensures Authenticate(db, header, verify, now).Authorized? && ProductOk(body) && !Bindable(body) ==>
      r == ProductAnswer(db, Reply(500, ServerError), NoProduct)
  {
    match Authenticate(db, header, verify, now)
    case Rejected(reply) => ProductAnswer(db, reply, NoProduct)
    case Authorized(user, _) =>
      ProductSchemaMeaning(body, f);
      BindableOutput(body);
      match ValidateInput(ProductSchema, body, f)
      case Fail(reply, _) => ProductAnswer(db, reply, NoProduct)
      case Pass(v) => CreateProduct(db, user, v, id)
  }

  /** The smallest valid product body: the four required fields and nothing
      else. */
  function BareProductBody(): map<string, Json>
  {
    map["title" := JStr("ab"), "description" := JStr("0123456789"),
        "price" := JNum(1.0), "category" := JStr("electronics")]
  }

  lemma BareBodyValid()
    ensures ProductOk(BareProductBody()) && !Bindable(BareProductBody())
  {
    assert "electronics" in ProductCategories;
  }

  /** A valid body without `location` passes the schema and is still not
      created: the insert throws on the missing column. */
  lemma CreateWithoutLocation(db: Db, header: Option<string>, verify: string -> Verdict, now: int,
                              f: Formats, id: Id)
    requires Authenticate(db, header, verify, now).Authorized?
    ensures Violations(ProductSchema, BareProductBody(), f) == []
    ensures CreateRoute(db, header, verify, now, BareProductBody(), f, id)
         == ProductAnswer(db, Reply(500, ServerError), NoProduct)
  {
    BareBodyValid();
    ProductSchemaMeaning(BareProductBody(), f);
  }

  /** A created product belongs to the authenticated caller and holds the
      body's fields, with stock 1 and not negotiable unless the body says
      otherwise, and the nullable columns as sent. */
  lemma CreateRouteStores(db: Db, header: Option<string>, verify: string -> Verdict, now: int,
                          body: map<string, Json>, f: Formats, id: Id)
    requires Authenticate(db, header, verify, now).Authorized? && ProductOk(body) && Bindable(body)
    ensures var r := CreateRoute(db, header, verify, now, body, f, id);
      var p := r.db.products[|db.products|];
      && r.reply == Reply(201, ProductCreated) && r.data == NewId(id)
      && p.id == id && p.sellerId == Authenticate(db, header, verify, now).user.id
      && p.status == Active && p.viewCount == 0
      && p.title == body["title"].s && p.price == body["price"].x.Floor
      && p.stock == (if "stock" in body then body["stock"].x.Floor else 1)
      && p.isNegotiable == (if "is_negotiable" in body then body["is_negotiable"].b else false)
      && ColumnJson(p.location) == body["location"]
  {
    ProductSchemaMeaning(body, f);
    DraftOfOutput(body);
  }

  // ---------------------------------------------------------------------
  // ownership

  /** The seller of a product and admins may change it. */
  predicate MayModify(user: User, p: Product)
  {
    p.sellerId == user.id || user.isAdmin
  }

  /** The check shared by update and delete: `SELECT seller_id FROM products
      WHERE id = ?`, with no join and no status filter. */
  function OwnerGuard(products: seq<Product>, user: User, id: string): (r: Outcome)
    ensures ProductById(products, id).None? ==> r == Halt(Reply(404, ProductNotFound))
    ensures ProductById(products, id).Some? ==> (r.Next? <==> MayModify(user, ProductById(products, id).value))
    ensures ProductById(products, id).Some? && r.Halt? ==> r.reply == Reply(403, Forbidden)
  {
    match ProductById(products, id)
    case None => Halt(Reply(404, ProductNotFound))
    case Some(p) => if p.sellerId != user.id && !user.isAdmin then Halt(Reply(403, Forbidden)) else Next
  }

  /** The update handler: after the owner check, the eight columns of every
      row with that id take the body's values; nothing else changes. A body
      the statement cannot bind makes it throw, answered with 500. */
  function UpdateProduct(db: Db, user: User, id: string, v: map<string, Json>): (r: ProductAnswer)
    ensures r.reply.status == 200 <==>
      ProductById(db.products, id).Some? && MayModify(user, ProductById(db.products, id).value) && Bindable(v)
    ensures r.reply.status != 200 ==> r.db == db && r.data == NoProduct
    ensures OwnerGuard(db.products, user, id).Halt? ==> r.reply == OwnerGuard(db.products, user, id).reply
    ensures OwnerGuard(db.products, user, id).Next? && !Bindable(v) ==> r.reply == Reply(500, ServerError)
    ensures r.reply.status == 200 ==>
      && r.reply.message == ProductUpdated
      && r.db == db.(products := UpdateWhere(db.products, id, Rewrite(DraftOf(v))))
  {
    match OwnerGuard(db.products, user, id)
    case Halt(reply) => ProductAnswer(db, reply, NoProduct)
    case Next =>
      if !Bindable(v) then ProductAnswer(db, Reply(500, ServerError), NoProduct)
      else
        ProductAnswer(db.(products := UpdateWhere(db.products, id, Rewrite(DraftOf(v)))),
                      Reply(200, ProductUpdated), NoProduct)
  }

  /** The delete handler: a soft delete, the status of every row with that id
      becomes `deleted`. */
  function DeleteProduct(db: Db, user: User, id: string): (r: ProductAnswer)
    ensures r.reply.status == 200 <==>
      ProductById(db.products, id).Some? && MayModify(user, ProductById(db.products, id).value)
    ensures r.reply.status != 200 ==> r.db == db && r.data == NoProduct
    ensures r.reply.status != 200 ==> r.reply == OwnerGuard(db.products, user, id).reply
    ensures r.reply.status == 200 ==>
      && r.reply.message == ProductDeleted
      && r.db == db.(products := UpdateWhere(db.products, id, MarkDeleted))
  {
    match OwnerGuard(db.products, user, id)
    case Halt(reply) => ProductAnswer(db, reply, NoProduct)
    case Next =>
      ProductAnswer(db.(products := UpdateWhere(db.products, id, MarkDeleted)),
                    Reply(200, ProductDeleted), NoProduct)
  }

  function MarkDeleted(p: Product): Product
  {
    p.(status := Deleted)
  }

  /** Update and delete refuse the same callers with the same answers. Past
      the owner check a deletion always succeeds, while an update still fails
      with 500 on a body it cannot bind. */
  lemma UpdateAndDeleteAgree(db: Db, user: User, id: string, v: map<string, Json>)
    ensures UpdateProduct(db, user, id, v).reply.status == 200 <==>
      DeleteProduct(db, user, id).reply.status == 200 && Bindable(v)
    ensures DeleteProduct(db, user, id).reply.status != 200 ==>
      UpdateProduct(db, user, id, v).reply == DeleteProduct(db, user, id).reply
    ensures DeleteProduct(db, user, id).reply.status == 200 && !Bindable(v) ==>
      UpdateProduct(db, user, id, v).reply == Reply(500, ServerError)
  {
  }

  /** An update rewrites the body's columns of the rows with that id and keeps
      each row's id, seller, status and view count. */
  lemma UpdateKeepsIdentity(db: Db, user: User, id: string, v: map<string, Json>, i: int)
    requires UpdateProduct(db, user, id, v).reply.status == 200
    requires 0 <= i < |db.products|
    ensures var before := db.products[i];
      var after := UpdateProduct(db, user, id, v).db.products[i];
      && after.id == before.id && after.sellerId == before.sellerId
      && after.status == before.status && after.viewCount == before.viewCount
      && (before.id == id ==> DraftIn(after) == DraftOf(v))
      && (before.id != id ==> after == before)
  {
    RewriteHoldsDraft(db.products[i], DraftOf(v));
  }

  /** A deletion changes the status of the rows with that id and nothing
      else. */
  lemma DeleteOnlyMarks(db: Db, user: User, id: string, i: int)
    requires DeleteProduct(db, user, id).reply.status == 200
    requires 0 <= i < |db.products|
    ensures var before := db.products[i];
      var after := DeleteProduct(db, user, id).db.products[i];
      && after.(status := before.status) == before
      && (before.id == id ==> after.status == Deleted)
      && (before.id != id ==> after == before)
  {
  }

  /** Deleting keeps the product findable with the same seller: the owner
      check answers afterwards as it did before. */
  lemma DeleteKeepsGuard(db: Db, user: User, id: string)
    requires DeleteProduct(db, user, id).reply.status == 200
    ensures OwnerGuard(DeleteProduct(db, user, id).db.products, user, id) == Next
  {
    MarkedKeepsSeller(db.products, id);
  }

  /** Marking the rows of one id deleted leaves the row that id finds, and its
      seller, where they were. */
  lemma MarkedKeepsSeller(products: seq<Product>, id: string)
    requires ProductById(products, id).Some?
    ensures var after := ProductById(UpdateWhere(products, id, MarkDeleted), id);
      after.Some? && after.value.sellerId == ProductById(products, id).value.sellerId
  {
    var k := FirstIndex(products, (q: Product) => q.id == id).value;
    var after := UpdateWhere(products, id, MarkDeleted);
    assert forall j :: 0 <= j < |after| ==> after[j].id == products[j].id && after[j].sellerId == products[j].sellerId;
    assert after[k] in after;
    var k' := FirstIndex(after, (q: Product) => q.id == id).value;
    assert k' == k;
  }

  /** A product already deleted can still be updated and deleted again: the
      owner check does not look at the status, so deleting changes no answer
      an update gets. */
  lemma DeletedStaysEditable(db: Db, user: User, id: string, v: map<string, Json>)
    requires DeleteProduct(db, user, id).reply.status == 200
    ensures var after := DeleteProduct(db, user, id).db;
      && UpdateProduct(after, user, id, v).reply == UpdateProduct(db, user, id, v).reply
      && UpdateProduct(after, user, id, v).reply.status == (if Bindable(v) then 200 else 500)
      && DeleteProduct(after, user, id).reply.status == 200
  {
    DeleteKeepsGuard(db, user, id);
  }

  /** Once deleted, a product no longer appears in any listing, yet its
      detail page still answers. */
  lemma DeletedLeavesListing(db: Db, user: User, k: int, r: ListingRequest)
    requires UniqueProductIds(db.products)
    requires 0 <= k < |db.products|
    requires DeleteProduct(db, user, db.products[k].id).reply.status == 200
    ensures var after := DeleteProduct(db, user, db.products[k].id).db;
      var q := ListingQuery(r);
      && !Selects(after.products[k], after.users, q.sql, q.params)
      && (IsUuidV4(db.products[k].id) && HasSeller(db.users, db.products[k]) ==>
            ProductDetail(after, db.products[k].id).reply.status == 200)
  {
    var after := DeleteProduct(db, user, db.products[k].id).db;
    ListingSelectsMeaning(after.products[k], after.users, r);
    assert after.products[k] in after.products;
  }

  // ---------------------------------------------------------------------
  // the guarded routes

  /** `PUT /:id`: token, then schema, then the owner check. */
  function UpdateRoute(db: Db, header: Option<string>, verify: string -> Verdict, now: int,
                       id: string, body: map<string, Json>, f: Formats): (r: ProductAnswer)
    ensures Authenticate(db, header, verify, now).Rejected? ==>
      r == ProductAnswer(db, Authenticate(db, header, verify, now).reply, NoProduct)
    ensures Authenticate(db, header, verify, now).Authorized? && !ProductOk(body) ==>
      r == ProductAnswer(db, Reply(400, InvalidInput), NoProduct)
    ensures Authenticate(db, header, verify, now).Authorized? && ProductOk(body) ==>
      r == UpdateProduct(db, Authenticate(db, header, verify, now).user, id, Output(ProductSchema, body))
  {
    match Authenticate(db, header, verify, now)
    case Rejected(reply) => ProductAnswer(db, reply, NoProduct)
    case Authorized(user, _) =>
      ProductSchemaMeaning(body, f);
      match ValidateInput(ProductSchema, body, f)
      case Fail(reply, _) => ProductAnswer(db, reply, NoProduct)
      case Pass(v) => UpdateProduct(db, user, id, v)
  }

  /** `DELETE /:id`: token, then the owner check. */
  function DeleteRoute(db: Db, header: Option<string>, verify: string -> Verdict, now: int,
                       id: string): (r: ProductAnswer)
    ensures Authenticate(db, header, verify, now).Rejected? ==>
      r == ProductAnswer(db, Authenticate(db, header, verify, now).reply, NoProduct)
    ensures Authenticate(db, header, verify, now).Authorized? ==>
      r == DeleteProduct(db, Authenticate(db, header, verify, now).user, id)
  {
    match Authenticate(db, header, verify, now)
    case Rejected(reply) => ProductAnswer(db, reply, NoProduct)
    case Authorized(user, _) => DeleteProduct(db, user, id)
  }

  /** A caller who is neither the seller nor an admin changes nothing: an
      update with a valid body and a deletion are both refused with 403. An
      update with an invalid body is refused with 400 before ownership is
      looked at. */
  lemma StrangerChangesNothing(db: Db, header: Option<string>, verify: string -> Verdict, now: int,
                               id: string, body: map<string, Json>, f: Formats)
    requires Authenticate(db, header, verify, now).Authorized?
    requires ProductById(db.products, id).Some?
    requires !MayModify(Authenticate(db, header, verify, now).user, ProductById(db.products, id).value)
    ensures DeleteRoute(db, header, verify, now, id) == ProductAnswer(db, Reply(403, Forbidden), NoProduct)
    ensures UpdateRoute(db, header, verify, now, id, body, f).db == db
    ensures UpdateRoute(db, header, verify, now, id, body, f).reply ==
      (if ProductOk(body) then Reply(403, Forbidden) else Reply(400, InvalidInput))
  {
  }

  /** An update without `stock` sets it back to 1: the schema default fills
      the field in, whatever the row held. */
  lemma UpdateResetsStock(db: Db, header: Option<string>, verify: string -> Verdict, now: int,
                          id: string, body: map<string, Json>, f: Formats, i: int)
    requires Authenticate(db, header, verify, now).Authorized? && ProductOk(body) && "stock" !in body
    requires UpdateRoute(db, header, verify, now, id, body, f).reply.status == 200
    requires 0 <= i < |db.products| && db.products[i].id == id
    ensures UpdateRoute(db, header, verify, now, id, body, f).db.products[i].stock == 1
  {
    DraftOfOutput(body);
    var user := Authenticate(db, header, verify, now).user;
    UpdateKeepsIdentity(db, user, id, Output(ProductSchema, body), i);
  }
}
