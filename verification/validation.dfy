/** The declarative request schemas of the hardened backend and the engine
    that applies them with `abortEarly: false` and `stripUnknown: true`.
    A schema is a list of fields; each field's rule is checked in the order
    the schema library uses: presence, then the allowed/valid value sets, then
    the base type (and the empty-string refusal), then each rule in turn. */
module Validation {
  import opened Basics
  import opened Text
  import opened Http

  /** The error codes a field can produce. */
  datatype Code =
    | AnyRequired | AnyOnly
    | StringBase | StringEmpty | StringMin | StringMax | StringPattern | StringEmail | StringGuid
    | NumberBase | NumberUnsafe | NumberInteger | NumberMin | NumberMax
    | BooleanBase

  datatype Violation = Violation(field: string, code: Code)

  /** The hand-written regular expressions of the schemas. */
  datatype PatternName = UsernameChars | PasswordStrength | PhoneFormat

  /** `.email()` and `.uuid()` are the schema library's own checks and are
      parameters of the model. */
  datatype Formats = Formats(isEmail: string -> bool, isGuid: string -> bool)

  datatype StrCheck = MinLen(n: nat) | MaxLen(n: nat) | Matches(p: PatternName) | EmailFormat | GuidFormat

  datatype NumCheck = IsInteger | AtLeast(lo: int) | AtMost(hi: int)

  datatype Rule =
    /** `Joi.string()`: `allow` lists the extra accepted values, `only` the
        `.valid(...)` set (empty when there is none). */
    | Str(required: bool, allow: seq<Json>, only: seq<string>, strChecks: seq<StrCheck>, strDefault: Option<string>)
    | Num(required: bool, allow: seq<Json>, numChecks: seq<NumCheck>, numDefault: Option<int>)
    | Bool(boolDefault: Option<bool>)
    /** `Joi.string().valid(Joi.ref(other)).required()`. */
    | SameAs(other: string)

  datatype Field = Field(name: string, rule: Rule)

  type Schema = seq<Field>

  // ---------------------------------------------------------------------
  // The hand-written patterns

  /** `[가-힣a-zA-Z0-9_]`. */
  predicate IsUsernameChar(c: char)
  {
    ('\U{AC00}' <= c <= '\U{D7A3}') || ('a' <= c <= 'z') || ('A' <= c <= 'Z') || IsDigit(c) || c == '_'
  }

  predicate IsLowerAscii(c: char) { 'a' <= c <= 'z' }
  predicate IsUpperAscii(c: char) { 'A' <= c <= 'Z' }
  predicate IsPasswordSymbol(c: char)
  {
    c == '@' || c == '$' || c == '!' || c == '%' || c == '*' || c == '?' || c == '&'
  }
  predicate IsLineTerminator(c: char)
  {
    c == '\n' || c == '\r' || c == '\U{2028}' || c == '\U{2029}'
  }

  /** The text a `.*` lookahead at position 0 can see: everything before the
      first line terminator. */
  function FirstLine(s: string): (r: string)
    ensures r <= s
    ensures forall k :: 0 <= k < |r| ==> !IsLineTerminator(r[k])
    ensures |r| < |s| ==> IsLineTerminator(s[|r|])
  {
    if |s| == 0 || IsLineTerminator(s[0]) then "" else [s[0]] + FirstLine(s[1..])
  }

  predicate AllDigits(s: string) { forall k :: 0 <= k < |s| ==> IsDigit(s[k]) }

  /** `-?[0-9]{4}` to the end. */
  predicate PhoneTail(b: string)
  {
    var c := if |b| > 0 && b[0] == '-' then b[1..] else b;
    |c| == 4 && AllDigits(c)
  }

  /** `[0-9]{n}-?[0-9]{4}` to the end. */
  predicate PhoneMiddle(a: string, n: nat)
  {
    |a| >= n && AllDigits(a[..n]) && PhoneTail(a[n..])
  }

  predicate PatternHolds(p: PatternName, s: string)
  {
    match p
    // ^[가-힣a-zA-Z0-9_]+$
    case UsernameChars => |s| > 0 && forall k :: 0 <= k < |s| ==> IsUsernameChar(s[k])
    // ^(?=.*[a-z])(?=.*[A-Z])(?=.*\d)(?=.*[@$!%*?&])[A-Za-z\d@$!%*?&]  (no end anchor)
    case PasswordStrength =>
      && |s| > 0
      && (IsLowerAscii(s[0]) || IsUpperAscii(s[0]) || IsDigit(s[0]) || IsPasswordSymbol(s[0]))
      && (exists k :: 0 <= k < |FirstLine(s)| && IsLowerAscii(FirstLine(s)[k]))
      && (exists k :: 0 <= k < |FirstLine(s)| && IsUpperAscii(FirstLine(s)[k]))
      && (exists k :: 0 <= k < |FirstLine(s)| && IsDigit(FirstLine(s)[k]))
      && (exists k :: 0 <= k < |FirstLine(s)| && IsPasswordSymbol(FirstLine(s)[k]))
    // ^01[0-9]-?[0-9]{3,4}-?[0-9]{4}$
    case PhoneFormat =>
      && |s| >= 3 && s[0] == '0' && s[1] == '1' && IsDigit(s[2])
      && var a := if |s| > 3 && s[3] == '-' then s[4..] else s[3..];
         PhoneMiddle(a, 3) || PhoneMiddle(a, 4)
  }

  /** Only the first character of a password is held to the class: the pattern
      has no end anchor, so any tail after a qualifying head is accepted. */
  lemma PasswordTailUnrestricted(head: string, tail: string)
    requires |head| > 0 && PatternHolds(PasswordStrength, head)
    ensures PatternHolds(PasswordStrength, head + tail)
  {
    var s := head + tail;
    var h := FirstLine(head);
    FirstLinePrefix(head, tail);
    assert s[0] == head[0];
    var k1 :| 0 <= k1 < |h| && IsLowerAscii(h[k1]);
    assert FirstLine(s)[k1] == h[k1];
    var k2 :| 0 <= k2 < |h| && IsUpperAscii(h[k2]);
    assert FirstLine(s)[k2] == h[k2];
    var k3 :| 0 <= k3 < |h| && IsDigit(h[k3]);
    assert FirstLine(s)[k3] == h[k3];
    var k4 :| 0 <= k4 < |h| && IsPasswordSymbol(h[k4]);
    assert FirstLine(s)[k4] == h[k4];
  }

  lemma {:induction false} FirstLinePrefix(head: string, tail: string)
    ensures FirstLine(head) <= FirstLine(head + tail)
  {
    if |head| > 0 && !IsLineTerminator(head[0]) {
      assert (head + tail)[1..] == head[1..] + tail;
      FirstLinePrefix(head[1..], tail);
    }
  }

  // ---------------------------------------------------------------------
  // The engine

  function StrCheckPasses(c: StrCheck, s: string, f: Formats): bool
  {
    match c
    case MinLen(n) => |s| >= n
    case MaxLen(n) => |s| <= n
    case Matches(p) => PatternHolds(p, s)
    case EmailFormat => f.isEmail(s)
    case GuidFormat => f.isGuid(s)
  }

  function StrCheckCode(c: StrCheck): Code
  {
    match c
    case MinLen(_) => StringMin
    case MaxLen(_) => StringMax
    case Matches(_) => StringPattern
    case EmailFormat => StringEmail
    case GuidFormat => StringGuid
  }

  /** Every failing rule reports, in rule order. */
  function StrCheckErrors(checks: seq<StrCheck>, s: string, f: Formats): (r: seq<Code>)
    ensures r == [] <==> forall k :: 0 <= k < |checks| ==> StrCheckPasses(checks[k], s, f)
    ensures |r| <= |checks|
    ensures AnyRequired !in r
  {
    if |checks| == 0 then []
    else
      var rest := StrCheckErrors(checks[1..], s, f);
      assert forall k :: 1 <= k < |checks| ==> checks[k] == checks[1..][k - 1];
      (if StrCheckPasses(checks[0], s, f) then [] else [StrCheckCode(checks[0])]) + rest
  }

  predicate IsInt(x: real) { x.Floor as real == x }

  function NumCheckPasses(c: NumCheck, x: real): bool
  {
    match c
    case IsInteger => IsInt(x)
    case AtLeast(lo) => x >= lo as real
    case AtMost(hi) => x <= hi as real
  }

  /** The largest integer a JavaScript number holds exactly, 2^53 - 1. */
  const MaxSafeInteger: int := 9007199254740991

  /** A number inside the range `Joi.number()` accepts unless told otherwise;
      outside it the base check fails with `number.unsafe` before any rule runs. */
  predicate SafeNumber(x: real)
  {
    -(MaxSafeInteger as real) <= x <= MaxSafeInteger as real
  }

  function NumCheckCode(c: NumCheck): Code
  {
    match c
    case IsInteger => NumberInteger
    case AtLeast(_) => NumberMin
    case AtMost(_) => NumberMax
  }

  function NumCheckErrors(checks: seq<NumCheck>, x: real): (r: seq<Code>)
    ensures r == [] <==> forall k :: 0 <= k < |checks| ==> NumCheckPasses(checks[k], x)
    ensures |r| <= |checks|
    ensures AnyRequired !in r && NumberUnsafe !in r
  {
    if |checks| == 0 then []
    else
      var rest := NumCheckErrors(checks[1..], x);
      assert forall k :: 1 <= k < |checks| ==> checks[k] == checks[1..][k - 1];
      (if NumCheckPasses(checks[0], x) then [] else [NumCheckCode(checks[0])]) + rest
  }

  /** The string type's own check: a non-string, then the empty string, are
      refused before any rule runs. */
  function StrBaseErrors(v: Json, checks: seq<StrCheck>, f: Formats): (r: seq<Code>)
    ensures !v.JStr? ==> r == [StringBase]
    ensures v == JStr("") ==> r == [StringEmpty]
    ensures v.JStr? && v.s != "" ==> r == StrCheckErrors(checks, v.s, f)
    ensures AnyRequired !in r
  {
    if !v.JStr? then [StringBase]
    else if v.s == "" then [StringEmpty]
    else StrCheckErrors(checks, v.s, f)
  }

  predicate IsRequired(r: Rule)
  {
    match r
    case Str(required, _, _, _, _) => required
    case Num(required, _, _, _) => required
    case Bool(_) => false
    case SameAs(_) => true
  }

  /** The error codes of one field. A value in the allowed or valid set is
      accepted without further rules. A value outside a `.valid(...)` set is
      reported as `any.only`, and, since the checks do not stop early, the
      base type and the rules still run after it. A base-type failure stops
      the field. */
  function FieldErrors(fld: Field, b: map<string, Json>, f: Formats): (r: seq<Code>)
    ensures fld.name !in b ==> r == (if IsRequired(fld.rule) then [AnyRequired] else [])
    ensures fld.name in b ==> AnyRequired !in r
    ensures fld.name in b && fld.rule.Str? && |fld.rule.only| > 0 && r != [] ==>
      r == [AnyOnly] + StrBaseErrors(b[fld.name], fld.rule.strChecks, f)
    ensures fld.name in b && fld.rule.SameAs? && r != [] ==>
      r == [AnyOnly] + StrBaseErrors(b[fld.name], [], f)
    ensures fld.name in b && fld.rule.Num? && b[fld.name] !in fld.rule.allow && b[fld.name].JNum? ==>
      (!SafeNumber(b[fld.name].x) <==> r == [NumberUnsafe])
  {
    var present := fld.name in b;
    match fld.rule
    case Str(required, allow, only, checks, _) =>
      if !present then (if required then [AnyRequired] else [])
      else
        var v := b[fld.name];
        if v in allow || (v.JStr? && v.s in only) then []
        else (if |only| > 0 then [AnyOnly] else []) + StrBaseErrors(v, checks, f)
    case Num(required, allow, checks, _) =>
      if !present then (if required then [AnyRequired] else [])
      else
        var v := b[fld.name];
        if v in allow then []
        else if !v.JNum? then [NumberBase]
        else if !SafeNumber(v.x) then [NumberUnsafe]
        else NumCheckErrors(checks, v.x)
    case Bool(_) =>
      if !present || b[fld.name].JBool? then [] else [BooleanBase]
    case SameAs(other) =>
      if !present then [AnyRequired]
      else if other in b && b[other] == b[fld.name] then []
      else [AnyOnly] + StrBaseErrors(b[fld.name], [], f)
  }

  /** A category that is not a string is reported twice: outside the valid
      set, and not a string. */
  lemma OnlyThenBase(name: string, only: seq<string>, b: map<string, Json>, f: Formats)
    requires |only| > 0 && name in b && b[name] == JNum(5.0)
    ensures FieldErrors(Field(name, Str(true, [], only, [], None)), b, f) == [AnyOnly, StringBase]
  {
  }

  function Tag(name: string, codes: seq<Code>): (r: seq<Violation>)
    ensures |r| == |codes|
    ensures forall k :: 0 <= k < |r| ==> r[k] == Violation(name, codes[k])
  {
    seq(|codes|, k requires 0 <= k < |codes| => Violation(name, codes[k]))
  }

  /** All violations, field by field in schema order. */
  function Violations(schema: Schema, b: map<string, Json>, f: Formats): (r: seq<Violation>)
    ensures r == [] <==> forall k :: 0 <= k < |schema| ==> FieldErrors(schema[k], b, f) == []
    ensures forall v :: v in r ==> exists k :: 0 <= k < |schema| && schema[k].name == v.field
  {
    if |schema| == 0 then []
    else
      var rest := Violations(schema[1..], b, f);
      assert forall k :: 1 <= k < |schema| ==> schema[k] == schema[1..][k - 1];
      Tag(schema[0].name, FieldErrors(schema[0], b, f)) + rest
  }

  /** The default a field takes when it is absent. */
  function DefaultOf(r: Rule): Option<Json>
  {
    match r
    case Str(_, _, _, _, d) => if d.Some? then Some(JStr(d.value)) else None
    case Num(_, _, _, d) => if d.Some? then Some(JNum(d.value as real)) else None
    case Bool(d) => if d.Some? then Some(JBool(d.value)) else None
    case SameAs(_) => None
  }

  predicate DistinctNames(schema: Schema)
  {
    forall i, j :: 0 <= i < j < |schema| ==> schema[i].name != schema[j].name
  }

  predicate Declares(schema: Schema, name: string)
  {
    exists k :: 0 <= k < |schema| && schema[k].name == name
  }

  /** The validated value: the schema's fields only, each as sent or, when
      absent, its default. */
  function Output(schema: Schema, b: map<string, Json>): (out: map<string, Json>)
    ensures forall key :: key in out ==> Declares(schema, key)
    ensures forall key :: key in b && Declares(schema, key) ==> key in out && out[key] == b[key]
    ensures DistinctNames(schema) ==> forall k :: 0 <= k < |schema| && schema[k].name !in b ==>
      && (schema[k].name in out <==> DefaultOf(schema[k].rule).Some?)
      && (schema[k].name in out ==> out[schema[k].name] == DefaultOf(schema[k].rule).value)
  {
    if |schema| == 0 then map[]
    else
      var rest := Output(schema[1..], b);
      assert forall key :: Declares(schema[1..], key) ==> Declares(schema, key) by {
        forall key | Declares(schema[1..], key) ensures Declares(schema, key) {
          var k :| 0 <= k < |schema[1..]| && schema[1..][k].name == key;
          assert schema[k + 1].name == key;
        }
      }
      assert forall key :: Declares(schema, key) && key != schema[0].name ==> Declares(schema[1..], key) by {
        forall key | Declares(schema, key) && key != schema[0].name ensures Declares(schema[1..], key) {
          var k :| 0 <= k < |schema| && schema[k].name == key;
          assert k > 0 && schema[1..][k - 1].name == key;
        }
      }
      var name := schema[0].name;
      if name in b then rest[name := b[name]]
      else match DefaultOf(schema[0].rule)
        case Some(d) => rest[name := d]
        case None => rest - {name}
  }

  datatype Checked = Accepted(value: map<string, Json>) | Refused(errors: seq<Violation>)

  /** `schema.validate(body, { abortEarly: false, stripUnknown: true })`. */
  function Validate(schema: Schema, b: map<string, Json>, f: Formats): (r: Checked)
    ensures r.Refused? <==> exists k :: 0 <= k < |schema| && FieldErrors(schema[k], b, f) != []
    ensures r.Refused? ==> r.errors == Violations(schema, b, f) && |r.errors| > 0
    ensures r.Accepted? ==> r.value.Keys <= (set k | 0 <= k < |schema| :: schema[k].name)
    ensures r.Accepted? ==> forall key :: key in b && Declares(schema, key) ==> key in r.value && r.value[key] == b[key]
  {
    var errs := Violations(schema, b, f);
    if |errs| > 0 then Refused(errs)
    else
      var out := Output(schema, b);
      assert forall key :: key in out ==> key in (set k | 0 <= k < |schema| :: schema[k].name) by {
        forall key | key in out ensures key in (set k | 0 <= k < |schema| :: schema[k].name) {
          var k :| 0 <= k < |schema| && schema[k].name == key;
        }
      }
      Accepted(out)
  }

  // ---------------------------------------------------------------------
  // The eleven schemas

  const EmptyOrNull: seq<Json> := [JStr(""), JNull]

  const ProductCategories: seq<string> :=
    ["electronics", "fashion", "beauty", "sports", "books", "food", "furniture", "etc"]

  const ConditionValues: seq<string> := ["new", "like_new", "good", "fair", "poor"]

  const InquiryCategories: seq<string> :=
    ["general", "order", "payment", "delivery", "refund", "product", "account", "etc"]

  const MessageTypes: seq<string> := ["text", "image", "file", "system"]

  const ReportReasons: seq<string> := ["spam", "fraud", "inappropriate", "copyright", "other"]

  const RegisterSchema: Schema := [
    Field("email", Str(true, [], [], [EmailFormat, MaxLen(255)], None)),
    Field("username", Str(true, [], [], [MinLen(2), MaxLen(100), Matches(UsernameChars)], None)),
    Field("password", Str(true, [], [], [MinLen(8), MaxLen(128), Matches(PasswordStrength)], None)),
    Field("phone", Str(false, EmptyOrNull, [], [Matches(PhoneFormat)], None)),
    Field("address", Str(false, EmptyOrNull, [], [MaxLen(500)], None))
  ]

  const LoginSchema: Schema := [
    Field("email", Str(true, [], [], [EmailFormat], None)),
    Field("password", Str(true, [], [], [], None))
  ]

  const ProductSchema: Schema := [
    Field("title", Str(true, [], [], [MinLen(2), MaxLen(200)], None)),
    Field("description", Str(true, [], [], [MinLen(10), MaxLen(5000)], None)),
    Field("price", Num(true, [], [IsInteger, AtLeast(0), AtMost(999999999)], None)),
    Field("category", Str(true, [], ProductCategories, [], None)),
    Field("stock", Num(false, [], [IsInteger, AtLeast(1), AtMost(9999)], Some(1))),
    Field("location", Str(false, EmptyOrNull, [], [MaxLen(100)], None)),
    Field("is_negotiable", Bool(Some(false))),
    Field("condition_status", Str(false, EmptyOrNull, ConditionValues, [], None))
  ]

  const ReviewSchema: Schema := [
    Field("product_id", Str(true, [], [], [GuidFormat], None)),
    Field("rating", Num(true, [], [IsInteger, AtLeast(1), AtMost(5)], None)),
    Field("comment", Str(true, [], [], [MinLen(10), MaxLen(1000)], None))
  ]

  const InquirySchema: Schema := [
    Field("email", Str(true, [], [], [EmailFormat], None)),
    Field("title", Str(true, [], [], [MinLen(5), MaxLen(200)], None)),
    Field("content", Str(true, [], [], [MinLen(10), MaxLen(2000)], None)),
    Field("category", Str(true, [], InquiryCategories, [], None))
  ]

  const MessageSchema: Schema := [
    Field("chat_room_id", Str(true, [], [], [GuidFormat], None)),
    Field("content", Str(true, [], [], [MinLen(1), MaxLen(1000)], None)),
    Field("message_type", Str(false, [], MessageTypes, [], Some("text")))
  ]

  const UpdateProfileSchema: Schema := [
    Field("username", Str(false, [], [], [MinLen(2), MaxLen(100), Matches(UsernameChars)], None)),
    Field("phone", Str(false, EmptyOrNull, [], [Matches(PhoneFormat)], None)),
    Field("address", Str(false, EmptyOrNull, [], [MaxLen(500)], None)),
    Field("bio", Str(false, EmptyOrNull, [], [MaxLen(500)], None))
  ]

  const ChangePasswordSchema: Schema := [
    Field("current_password", Str(true, [], [], [], None)),
    Field("new_password", Str(true, [], [], [MinLen(8), MaxLen(128), Matches(PasswordStrength)], None)),
    Field("confirm_password", SameAs("new_password"))
  ]

  const PriceSuggestionSchema: Schema := [
    Field("product_id", Str(true, [], [], [GuidFormat], None)),
    Field("suggested_price", Num(true, [], [IsInteger, AtLeast(0), AtMost(999999999)], None)),
    Field("message", Str(false, EmptyOrNull, [], [MaxLen(500)], None))
  ]

  const ReportSchema: Schema := [
    Field("reported_user_id", Str(false, [JNull], [], [GuidFormat], None)),
    Field("reported_product_id", Str(false, [JNull], [], [GuidFormat], None)),
    Field("reported_review_id", Str(false, [JNull], [], [GuidFormat], None)),
    Field("reason", Str(true, [], ReportReasons, [], None)),
    Field("description", Str(true, [], [], [MinLen(10), MaxLen(500)], None))
  ]

  const SearchSchema: Schema := [
    Field("q", Str(false, EmptyOrNull, [], [MaxLen(200)], None)),
    Field("category", Str(false, EmptyOrNull, ProductCategories + [""], [], None)),
    Field("minPrice", Num(false, [JNull], [IsInteger, AtLeast(0)], None)),
    Field("maxPrice", Num(false, [JNull], [IsInteger, AtLeast(0)], None)),
    Field("location", Str(false, EmptyOrNull, [], [MaxLen(100)], None)),
    Field("page", Num(false, [], [IsInteger, AtLeast(1)], Some(1))),
    Field("limit", Num(false, [], [IsInteger, AtLeast(1), AtMost(100)], Some(20)))
  ]

  // ---------------------------------------------------------------------
  // What each schema accepts, stated field by field

  /** A required string of `lo` to `hi` characters; never the empty string. */
  predicate ReqText(b: map<string, Json>, k: string, lo: nat, hi: nat)
  {
    k in b && b[k].JStr? && 1 <= |b[k].s| && lo <= |b[k].s| <= hi
  }

  /** An optional string of at most `hi` characters, where `""` and `null`
      also pass. */
  predicate OptText(b: map<string, Json>, k: string, hi: nat)
  {
    k !in b || b[k] == JNull || (b[k].JStr? && |b[k].s| <= hi)
  }

  /** An optional string that, when present, non-empty and not `null`, has the
      given shape. */
  predicate OptShaped(b: map<string, Json>, k: string, p: PatternName)
  {
    k !in b || b[k] == JNull || b[k] == JStr("") || (b[k].JStr? && PatternHolds(p, b[k].s))
  }

  /** A whole number in `lo..hi`. */
  predicate WholeIn(v: Json, lo: int, hi: int)
  {
    v.JNum? && IsInt(v.x) && lo as real <= v.x <= hi as real
  }

  /** A required whole number in `lo..hi`. */
  predicate ReqWhole(b: map<string, Json>, k: string, lo: int, hi: int)
  {
    k in b && WholeIn(b[k], lo, hi)
  }

  /** A required non-empty string in the `email` format. */
  predicate ReqEmail(b: map<string, Json>, k: string, f: Formats)
  {
    k in b && b[k].JStr? && b[k].s != "" && f.isEmail(b[k].s)
  }

  /** A required string from a fixed list. */
  predicate ReqChoice(b: map<string, Json>, k: string, values: seq<string>)
  {
    k in b && b[k].JStr? && b[k].s in values
  }

  /** A non-empty string in the `uuid` format. */
  predicate IsGuidText(v: Json, f: Formats)
  {
    v.JStr? && v.s != "" && f.isGuid(v.s)
  }

  // Shapes of fields, each tied to its plain statement.

  lemma ChecksOfTwo(c0: StrCheck, c1: StrCheck, s: string, f: Formats)
    ensures StrCheckErrors([c0, c1], s, f) == [] <==> StrCheckPasses(c0, s, f) && StrCheckPasses(c1, s, f)
  {
    assert [c0, c1][1..] == [c1];
    assert [c1][1..] == [];
  }

  lemma ChecksOfThree(c0: StrCheck, c1: StrCheck, c2: StrCheck, s: string, f: Formats)
    ensures StrCheckErrors([c0, c1, c2], s, f) == [] <==>
      StrCheckPasses(c0, s, f) && StrCheckPasses(c1, s, f) && StrCheckPasses(c2, s, f)
  {
    assert [c0, c1, c2][1..] == [c1, c2];
    ChecksOfTwo(c1, c2, s, f);
  }

  predicate Clean(fld: Field, b: map<string, Json>, f: Formats)
  {
    FieldErrors(fld, b, f) == []
  }

  lemma TextField(name: string, required: bool, lo: nat, hi: nat, b: map<string, Json>, f: Formats)
    ensures Clean(Field(name, Str(required, [], [], [MinLen(lo), MaxLen(hi)], None)), b, f) <==>
      (name in b || required ==> ReqText(b, name, lo, hi))
  {
    if name in b && b[name].JStr? {
      ChecksOfTwo(MinLen(lo), MaxLen(hi), b[name].s, f);
    }
  }

  lemma ShapedTextField(name: string, required: bool, lo: nat, hi: nat, p: PatternName, b: map<string, Json>, f: Formats)
    ensures Clean(Field(name, Str(required, [], [], [MinLen(lo), MaxLen(hi), Matches(p)], None)), b, f) <==>
      (name in b || required ==> ReqText(b, name, lo, hi) && PatternHolds(p, b[name].s))
  {
    if name in b && b[name].JStr? {
      ChecksOfThree(MinLen(lo), MaxLen(hi), Matches(p), b[name].s, f);
    }
  }

  lemma EmailField(name: string, b: map<string, Json>, f: Formats)
    ensures Clean(Field(name, Str(true, [], [], [EmailFormat], None)), b, f) <==>
      name in b && b[name].JStr? && b[name].s != "" && f.isEmail(b[name].s)
  {
  }

  lemma BoundedEmailField(name: string, hi: nat, b: map<string, Json>, f: Formats)
    ensures Clean(Field(name, Str(true, [], [], [EmailFormat, MaxLen(hi)], None)), b, f) <==>
      ReqText(b, name, 1, hi) && f.isEmail(b[name].s)
  {
    if name in b && b[name].JStr? {
      ChecksOfTwo(EmailFormat, MaxLen(hi), b[name].s, f);
    }
  }

  lemma PlainField(name: string, b: map<string, Json>, f: Formats)
    ensures Clean(Field(name, Str(true, [], [], [], None)), b, f) <==>
      name in b && b[name].JStr? && b[name].s != ""
  {
  }

  lemma GuidField(name: string, required: bool, allow: seq<Json>, b: map<string, Json>, f: Formats)
    ensures Clean(Field(name, Str(required, allow, [], [GuidFormat], None)), b, f) <==>
      if name in b then b[name] in allow || IsGuidText(b[name], f) else !required
  {
  }

  lemma OptTextField(name: string, hi: nat, b: map<string, Json>, f: Formats)
    ensures Clean(Field(name, Str(false, EmptyOrNull, [], [MaxLen(hi)], None)), b, f) <==> OptText(b, name, hi)
  {
  }

  lemma OptShapedField(name: string, p: PatternName, b: map<string, Json>, f: Formats)
    ensures Clean(Field(name, Str(false, EmptyOrNull, [], [Matches(p)], None)), b, f) <==> OptShaped(b, name, p)
  {
  }

  lemma ChoiceField(name: string, required: bool, allow: seq<Json>, only: seq<string>, d: Option<string>,
                    b: map<string, Json>, f: Formats)
    requires |only| > 0
    ensures Clean(Field(name, Str(required, allow, only, [], d)), b, f) <==>
      if name in b then b[name] in allow || (b[name].JStr? && b[name].s in only) else !required
  {
  }

  lemma WholeField(name: string, required: bool, allow: seq<Json>, lo: int, hi: int, d: Option<int>,
                   b: map<string, Json>, f: Formats)
    requires -MaxSafeInteger <= lo && hi <= MaxSafeInteger
    ensures Clean(Field(name, Num(required, allow, [IsInteger, AtLeast(lo), AtMost(hi)], d)), b, f) <==>
      if name in b then b[name] in allow || WholeIn(b[name], lo, hi) else !required
  {
    if name in b && b[name].JNum? {
      var c := [IsInteger, AtLeast(lo), AtMost(hi)];
      var x := b[name].x;
      assert c[1..] == [AtLeast(lo), AtMost(hi)] && c[1..][1..] == [AtMost(hi)] && c[1..][1..][1..] == [];
      assert NumCheckErrors(c[1..][1..][1..], x) == [];
      assert NumCheckErrors(c[1..][1..], x) == [] <==> x <= hi as real;
      assert NumCheckErrors(c[1..], x) == [] <==> x >= lo as real && x <= hi as real;
    }
  }

  lemma WholeFromField(name: string, allow: seq<Json>, lo: int, d: Option<int>, b: map<string, Json>, f: Formats)
    ensures Clean(Field(name, Num(false, allow, [IsInteger, AtLeast(lo)], d)), b, f) <==>
      name in b ==> b[name] in allow || (b[name].JNum? && IsInt(b[name].x) && SafeNumber(b[name].x) && b[name].x >= lo as real)
  {
    if name in b && b[name].JNum? {
      var c := [IsInteger, AtLeast(lo)];
      var x := b[name].x;
      assert c[1..] == [AtLeast(lo)] && c[1..][1..] == [];
      assert NumCheckErrors(c[1..][1..], x) == [];
      assert NumCheckErrors(c[1..], x) == [] <==> x >= lo as real;
    }
  }

  lemma SameAsField(name: string, other: string, b: map<string, Json>, f: Formats)
    ensures Clean(Field(name, SameAs(other)), b, f) <==> name in b && other in b && b[other] == b[name]
  {
  }

  /** A body passes a schema exactly when each field is clean. */
  lemma CleanFields(schema: Schema, b: map<string, Json>, f: Formats)
    ensures Violations(schema, b, f) == [] <==> forall k :: 0 <= k < |schema| ==> Clean(schema[k], b, f)
  {
  }

  /** The same, field by field, for schemas of up to eight fields. */
  lemma {:induction false} CleanEach(schema: Schema, b: map<string, Json>, f: Formats)
    requires |schema| <= 8
    ensures Violations(schema, b, f) == [] <==>
      && (|schema| > 0 ==> Clean(schema[0], b, f)) && (|schema| > 1 ==> Clean(schema[1], b, f))
      && (|schema| > 2 ==> Clean(schema[2], b, f)) && (|schema| > 3 ==> Clean(schema[3], b, f))
      && (|schema| > 4 ==> Clean(schema[4], b, f)) && (|schema| > 5 ==> Clean(schema[5], b, f))
      && (|schema| > 6 ==> Clean(schema[6], b, f)) && (|schema| > 7 ==> Clean(schema[7], b, f))
  {
    if |schema| > 0 {
      CleanEach(schema[1..], b, f);
    }
  }

  predicate RegisterOk(b: map<string, Json>, f: Formats)
  {
    && ReqText(b, "email", 1, 255) && f.isEmail(b["email"].s)
    && ReqText(b, "username", 2, 100) && PatternHolds(UsernameChars, b["username"].s)
    && ReqText(b, "password", 8, 128) && PatternHolds(PasswordStrength, b["password"].s)
    && OptShaped(b, "phone", PhoneFormat)
    && OptText(b, "address", 500)
  }

  /** The register schema accepts exactly the bodies `RegisterOk` describes. */
  lemma RegisterSchemaMeaning(b: map<string, Json>, f: Formats)
    ensures Violations(RegisterSchema, b, f) == [] <==> RegisterOk(b, f)
  {
    var S := RegisterSchema;
    CleanEach(S, b, f);
    BoundedEmailField("email", 255, b, f);
    ShapedTextField("username", true, 2, 100, UsernameChars, b, f);
    ShapedTextField("password", true, 8, 128, PasswordStrength, b, f);
    OptShapedField("phone", PhoneFormat, b, f);
    OptTextField("address", 500, b, f);
  }

  predicate LoginOk(b: map<string, Json>, f: Formats)
  {
    && ReqEmail(b, "email", f)
    && "password" in b && b["password"].JStr? && b["password"].s != ""
  }

  lemma LoginSchemaMeaning(b: map<string, Json>, f: Formats)
    ensures Violations(LoginSchema, b, f) == [] <==> LoginOk(b, f)
  {
    CleanEach(LoginSchema, b, f);
    EmailField("email", b, f);
    PlainField("password", b, f);
  }

  predicate ProductOk(b: map<string, Json>)
  {
    && ReqText(b, "title", 2, 200)
    && ReqText(b, "description", 10, 5000)
    && ReqWhole(b, "price", 0, 999999999)
    && ReqChoice(b, "category", ProductCategories)
    && ("stock" in b ==> WholeIn(b["stock"], 1, 9999))
    && OptText(b, "location", 100)
    && ("is_negotiable" in b ==> b["is_negotiable"].JBool?)
    && ("condition_status" in b ==>
          || b["condition_status"] == JNull || b["condition_status"] == JStr("")
          || (b["condition_status"].JStr? && b["condition_status"].s in ConditionValues))
  }

  lemma ProductSchemaMeaning(b: map<string, Json>, f: Formats)
    ensures Violations(ProductSchema, b, f) == [] <==> ProductOk(b)
  {
    var S := ProductSchema;
    CleanEach(S, b, f);
    ProductFields(b, f);
  }

  lemma ProductFields(b: map<string, Json>, f: Formats)
    ensures Clean(ProductSchema[0], b, f) <==> ReqText(b, "title", 2, 200)
    ensures Clean(ProductSchema[1], b, f) <==> ReqText(b, "description", 10, 5000)
    ensures Clean(ProductSchema[2], b, f) <==> ReqWhole(b, "price", 0, 999999999)
    ensures Clean(ProductSchema[3], b, f) <==> ReqChoice(b, "category", ProductCategories)
    ensures Clean(ProductSchema[4], b, f) <==> ("stock" in b ==> WholeIn(b["stock"], 1, 9999))
    ensures Clean(ProductSchema[5], b, f) <==> OptText(b, "location", 100)
    ensures Clean(ProductSchema[6], b, f) <==> ("is_negotiable" in b ==> b["is_negotiable"].JBool?)
    ensures Clean(ProductSchema[7], b, f) <==> ("condition_status" in b ==>
          || b["condition_status"] == JNull || b["condition_status"] == JStr("")
          || (b["condition_status"].JStr? && b["condition_status"].s in ConditionValues))
  {
    TextField("title", true, 2, 200, b, f);
    TextField("description", true, 10, 5000, b, f);
    WholeField("price", true, [], 0, 999999999, None, b, f);
    ChoiceField("category", true, [], ProductCategories, None, b, f);
    WholeField("stock", false, [], 1, 9999, Some(1), b, f);
    OptTextField("location", 100, b, f);
    ChoiceField("condition_status", false, EmptyOrNull, ConditionValues, None, b, f);
  }

  predicate ReviewOk(b: map<string, Json>, f: Formats)
  {
    && "product_id" in b && IsGuidText(b["product_id"], f)
    && ReqWhole(b, "rating", 1, 5)
    && ReqText(b, "comment", 10, 1000)
  }

  lemma ReviewSchemaMeaning(b: map<string, Json>, f: Formats)
    ensures Violations(ReviewSchema, b, f) == [] <==> ReviewOk(b, f)
  {
    CleanEach(ReviewSchema, b, f);
    GuidField("product_id", true, [], b, f);
    WholeField("rating", true, [], 1, 5, None, b, f);
    TextField("comment", true, 10, 1000, b, f);
  }

  predicate InquiryOk(b: map<string, Json>, f: Formats)
  {
    && ReqEmail(b, "email", f)
    && ReqText(b, "title", 5, 200)
    && ReqText(b, "content", 10, 2000)
    && ReqChoice(b, "category", InquiryCategories)
  }

  lemma InquirySchemaMeaning(b: map<string, Json>, f: Formats)
    ensures Violations(InquirySchema, b, f) == [] <==> InquiryOk(b, f)
  {
    CleanEach(InquirySchema, b, f);
    EmailField("email", b, f);
    TextField("title", true, 5, 200, b, f);
    TextField("content", true, 10, 2000, b, f);
    ChoiceField("category", true, [], InquiryCategories, None, b, f);
  }

  predicate MessageOk(b: map<string, Json>, f: Formats)
  {
    && "chat_room_id" in b && IsGuidText(b["chat_room_id"], f)
    && ReqText(b, "content", 1, 1000)
    && ("message_type" in b ==> b["message_type"].JStr? && b["message_type"].s in MessageTypes)
  }

  lemma MessageSchemaMeaning(b: map<string, Json>, f: Formats)
    ensures Violations(MessageSchema, b, f) == [] <==> MessageOk(b, f)
  {
    CleanEach(MessageSchema, b, f);
    GuidField("chat_room_id", true, [], b, f);
    TextField("content", true, 1, 1000, b, f);
    ChoiceField("message_type", false, [], MessageTypes, Some("text"), b, f);
  }

  predicate UpdateProfileOk(b: map<string, Json>)
  {
    && ("username" in b ==> ReqText(b, "username", 2, 100) && PatternHolds(UsernameChars, b["username"].s))
    && OptShaped(b, "phone", PhoneFormat)
    && OptText(b, "address", 500)
    && OptText(b, "bio", 500)
  }

  lemma UpdateProfileSchemaMeaning(b: map<string, Json>, f: Formats)
    ensures Violations(UpdateProfileSchema, b, f) == [] <==> UpdateProfileOk(b)
  {
    CleanEach(UpdateProfileSchema, b, f);
    ShapedTextField("username", false, 2, 100, UsernameChars, b, f);
    OptShapedField("phone", PhoneFormat, b, f);
    OptTextField("address", 500, b, f);
    OptTextField("bio", 500, b, f);
  }

  predicate ChangePasswordOk(b: map<string, Json>)
  {
    && "current_password" in b && b["current_password"].JStr? && b["current_password"].s != ""
    && ReqText(b, "new_password", 8, 128) && PatternHolds(PasswordStrength, b["new_password"].s)
    && "confirm_password" in b && b["confirm_password"] == b["new_password"]
  }

  lemma ChangePasswordSchemaMeaning(b: map<string, Json>, f: Formats)
    ensures Violations(ChangePasswordSchema, b, f) == [] <==> ChangePasswordOk(b)
  {
    CleanEach(ChangePasswordSchema, b, f);
    PlainField("current_password", b, f);
    ShapedTextField("new_password", true, 8, 128, PasswordStrength, b, f);
    SameAsField("confirm_password", "new_password", b, f);
  }

  predicate PriceSuggestionOk(b: map<string, Json>, f: Formats)
  {
    && "product_id" in b && IsGuidText(b["product_id"], f)
    && ReqWhole(b, "suggested_price", 0, 999999999)
    && OptText(b, "message", 500)
  }

  lemma PriceSuggestionSchemaMeaning(b: map<string, Json>, f: Formats)
    ensures Violations(PriceSuggestionSchema, b, f) == [] <==> PriceSuggestionOk(b, f)
  {
    CleanEach(PriceSuggestionSchema, b, f);
    GuidField("product_id", true, [], b, f);
    WholeField("suggested_price", true, [], 0, 999999999, None, b, f);
    OptTextField("message", 500, b, f);
  }

  /** An optional reference to another record: absent, `null` or a uuid. */
  predicate OptGuid(b: map<string, Json>, k: string, f: Formats)
  {
    k !in b || b[k] == JNull || IsGuidText(b[k], f)
  }

  lemma OptGuidField(name: string, b: map<string, Json>, f: Formats)
    ensures Clean(Field(name, Str(false, [JNull], [], [GuidFormat], None)), b, f) <==> OptGuid(b, name, f)
  {
    GuidField(name, false, [JNull], b, f);
    if name in b {
      assert b[name] in [JNull] <==> b[name] == JNull;
    }
  }

  predicate ReportOk(b: map<string, Json>, f: Formats)
  {
    && OptGuid(b, "reported_user_id", f)
    && OptGuid(b, "reported_product_id", f)
    && OptGuid(b, "reported_review_id", f)
    && ReqChoice(b, "reason", ReportReasons)
    && ReqText(b, "description", 10, 500)
  }

  lemma ReportSchemaMeaning(b: map<string, Json>, f: Formats)
    ensures Violations(ReportSchema, b, f) == [] <==> ReportOk(b, f)
  {
    CleanEach(ReportSchema, b, f);
    OptGuidField("reported_user_id", b, f);
    OptGuidField("reported_product_id", b, f);
    OptGuidField("reported_review_id", b, f);
    ChoiceField("reason", true, [], ReportReasons, None, b, f);
    TextField("description", true, 10, 500, b, f);
  }

  /** An optional price bound: absent, `null` or a whole number from 0 up to
      `MaxSafeInteger`. */
  predicate OptPriceBound(b: map<string, Json>, k: string)
  {
    k in b ==> b[k] == JNull || (b[k].JNum? && IsInt(b[k].x) && SafeNumber(b[k].x) && b[k].x >= 0.0)
  }

  predicate SearchOk(b: map<string, Json>)
  {
    && OptText(b, "q", 200)
    && ("category" in b ==>
          b["category"] == JNull || (b["category"].JStr? && (b["category"].s == "" || b["category"].s in ProductCategories)))
    && OptPriceBound(b, "minPrice")
    && OptPriceBound(b, "maxPrice")
    && OptText(b, "location", 100)
    && ("page" in b ==> b["page"].JNum? && IsInt(b["page"].x) && SafeNumber(b["page"].x) && b["page"].x >= 1.0)
    && ("limit" in b ==> WholeIn(b["limit"], 1, 100))
  }

  lemma SearchSchemaMeaning(b: map<string, Json>, f: Formats)
    ensures Violations(SearchSchema, b, f) == [] <==> SearchOk(b)
  {
    CleanEach(SearchSchema, b, f);
    SearchFields(b, f);
  }

  /** A page of 2^53 is a whole number from 1 up, yet the search is refused:
      the number is past the safe range. */
  lemma UnsafePageRefused(b: map<string, Json>, f: Formats)
    requires "page" in b && b["page"] == JNum(9007199254740992.0)
    ensures Violations(SearchSchema, b, f) != []
  {
    SearchSchemaMeaning(b, f);
  }

  lemma SearchFields(b: map<string, Json>, f: Formats)
    ensures Clean(SearchSchema[0], b, f) <==> OptText(b, "q", 200)
    ensures Clean(SearchSchema[1], b, f) <==> ("category" in b ==>
          b["category"] == JNull || (b["category"].JStr? && (b["category"].s == "" || b["category"].s in ProductCategories)))
    ensures Clean(SearchSchema[2], b, f) <==> OptPriceBound(b, "minPrice")
    ensures Clean(SearchSchema[3], b, f) <==> OptPriceBound(b, "maxPrice")
    ensures Clean(SearchSchema[4], b, f) <==> OptText(b, "location", 100)
    ensures Clean(SearchSchema[5], b, f) <==> ("page" in b ==> b["page"].JNum? && IsInt(b["page"].x) && SafeNumber(b["page"].x) && b["page"].x >= 1.0)
    ensures Clean(SearchSchema[6], b, f) <==> ("limit" in b ==> WholeIn(b["limit"], 1, 100))
  {
    OptTextField("q", 200, b, f);
    ChoiceField("category", false, EmptyOrNull, ProductCategories + [""], None, b, f);
    WholeFromField("minPrice", [JNull], 0, None, b, f);
    WholeFromField("maxPrice", [JNull], 0, None, b, f);
    OptTextField("location", 100, b, f);
    WholeFromField("page", [], 1, Some(1), b, f);
    WholeField("limit", false, [], 1, 100, Some(20), b, f);
  }

  /** An absent field of an accepted body takes its default, or stays absent
      when it has none. */
  lemma AbsentTakesDefault(schema: Schema, b: map<string, Json>, f: Formats, k: int)
    requires Validate(schema, b, f).Accepted? && DistinctNames(schema)
    requires 0 <= k < |schema| && schema[k].name !in b
    ensures var v := Validate(schema, b, f).value;
      && (schema[k].name in v <==> DefaultOf(schema[k].rule).Some?)
      && (schema[k].name in v ==> v[schema[k].name] == DefaultOf(schema[k].rule).value)
  {
  }

  lemma SearchNamesDistinct()
    ensures DistinctNames(SearchSchema)
  {
  }

  /** An empty search query is accepted and asks for the first page of
      twenty, with no other criterion. */
  lemma SearchDefaults(f: Formats)
    ensures Validate(SearchSchema, map[], f).Accepted?
    ensures var v := Validate(SearchSchema, map[], f).value;
      && "page" in v && v["page"] == JNum(1.0) && "limit" in v && v["limit"] == JNum(20.0)
      && "q" !in v && "category" !in v && "minPrice" !in v && "maxPrice" !in v && "location" !in v
  {
    var b: map<string, Json> := map[];
    SearchSchemaMeaning(b, f);
    SearchNamesDistinct();
    AbsentTakesDefault(SearchSchema, b, f, 0);
    AbsentTakesDefault(SearchSchema, b, f, 1);
    AbsentTakesDefault(SearchSchema, b, f, 2);
    AbsentTakesDefault(SearchSchema, b, f, 3);
    AbsentTakesDefault(SearchSchema, b, f, 4);
    AbsentTakesDefault(SearchSchema, b, f, 5);
    AbsentTakesDefault(SearchSchema, b, f, 6);
  }
}
