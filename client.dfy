/**
 * Request and response shaping around the DynamoDB Query and Scan calls
 * (aws/dynamodb.go:176-308): the key-condition expression with its
 * placeholder tables, the continuation token in both directions, and the
 * parallel display/raw projections of every returned item. The SDK call
 * itself is a parameter: a function from the request to a page or an error.
 */
module DynamoClient {
  import opened Wrappers
  import opened GoText
  import opened AttributeCodec

  /** Both Query and Scan ask for one batch of 15 items. */
  const PageLimit: int := 15

  /** An item as shown: attribute name to display string. */
  type DisplayItem = map<string, string>

  /** An item as exported: attribute name to native value. */
  type RawItem = map<string, Native>

  /** A continuation token as the explorer keeps it (a `map[string]interface{}`). */
  type Token = map<string, Native>

  /** `QueryResult`: the two projections of one page and the optional continuation token. */
  datatype QueryResult = QueryResult(items: seq<DisplayItem>, rawItems: seq<RawItem>, lastEvaluatedKey: Option<Token>)

  datatype KeyCondition = KeyCondition(expression: string, names: map<string, string>, values: map<string, AttributeValue>)

  datatype QueryInput = QueryInput(
    tableName: string,
    limit: int,
    keyCondition: KeyCondition,
    exclusiveStartKey: Option<map<string, AttributeValue>>)

  datatype ScanInput = ScanInput(tableName: string, limit: int, exclusiveStartKey: Option<map<string, AttributeValue>>)

  /** What the backend returns for one request. */
  datatype Page = Page(items: seq<map<string, AttributeValue>>, lastEvaluatedKey: Option<map<string, AttributeValue>>)

  datatype BackendError = BackendError(message: string)

  /** The parameters of `Client.Query` other than the start key. */
  datatype QueryParams = QueryParams(
    tableName: string,
    partitionKey: string,
    partitionValue: string,
    sortKey: string,
    sortValue: string,
    condition: string)

  // ---------------------------------------------------------------------------
  // Key condition

  predicate HasSortClause(sortKey: string, sortValue: string)
  {
    sortKey != "" && sortValue != ""
  }

  /** The operators the Condition drop-down offers. */
  predicate KnownOperator(condition: string)
  {
    condition in {"=", "begins_with", "<", "<=", ">", ">=", "between"}
  }

  /** The comparison operators, written between `#sk` and `:sk`. */
  predicate ComparisonOperator(condition: string)
  {
    condition in {"=", "<", "<=", ">", ">="}
  }

  /** What each operator's expression adds after the partition clause; an unrecognised operator adds nothing. */
  function SortClause(condition: string): string
  {
    if ComparisonOperator(condition) then " AND #sk " + condition + " :sk"
    else if condition == "begins_with" then " AND begins_with(#sk, :sk)"
    else if condition == "between" then " AND #sk BETWEEN :sk AND :sk2"
    else ""
  }

  /** The whole expression chosen for each operator: the partition clause, then the operator's sort clause. */
  function ConditionExpression(condition: string): string
  {
    "#pk = :pk" + SortClause(condition)
  }

  /** The key condition `Query` sends. */
  function KeyConditionFor(partitionKey: string, partitionValue: string, sortKey: string, sortValue: string, condition: string): KeyCondition
  {
    if HasSortClause(sortKey, sortValue) then
      KeyCondition(ConditionExpression(condition),
                   map["#pk" := partitionKey, "#sk" := sortKey],
                   map[":pk" := S(partitionValue), ":sk" := S(sortValue)])
    else
      KeyCondition("#pk = :pk", map["#pk" := partitionKey], map[":pk" := S(partitionValue)])
  }

  function Bound(c: KeyCondition): set<string>
  {
    c.names.Keys + c.values.Keys
  }

  predicate IsNameChar(c: char)
  {
    'a' <= c <= 'z' || 'A' <= c <= 'Z' || '0' <= c <= '9' || c == '_'
  }

  function NameRun(s: string): (n: nat)
    ensures n <= |s|
    ensures forall i :: 0 <= i < n ==> IsNameChar(s[i])
    ensures n < |s| ==> !IsNameChar(s[n])
  {
    if s != [] && IsNameChar(s[0]) then 1 + NameRun(s[1..]) else 0
  }

  /** The `#name` and `:name` placeholders an expression refers to. */
  function Placeholders(e: string): set<string>
    decreases |e|
  {
    if e == [] then {}
    else if e[0] == '#' || e[0] == ':' then
      var n := NameRun(e[1..]);
      {e[..n + 1]} + Placeholders(e[n + 1..])
    else Placeholders(e[1..])
  }

  predicate AllNameChars(w: string)
  {
    forall i :: 0 <= i < |w| ==> IsNameChar(w[i])
  }

  predicate NoSigil(s: string)
  {
    forall i :: 0 <= i < |s| ==> s[i] != '#' && s[i] != ':'
  }

  lemma {:induction false} NameRunOf(w: string, rest: string)
    requires AllNameChars(w) && (rest == [] || !IsNameChar(rest[0]))
    ensures NameRun(w + rest) == |w|
  {
    if w == [] {
      assert w + rest == rest;
    } else {
      assert (w + rest)[1..] == w[1..] + rest;
      NameRunOf(w[1..], rest);
    }
  }

  /** A sigil followed by a name that a non-name character ends is one placeholder. */
  lemma RefPlaceholders(ref: string, rest: string)
    requires |ref| >= 1 && (ref[0] == '#' || ref[0] == ':') && AllNameChars(ref[1..])
    requires rest == [] || !IsNameChar(rest[0])
    ensures Placeholders(ref + rest) == {ref} + Placeholders(rest)
  {
    var e := ref + rest;
    assert e[1..] == ref[1..] + rest;
    NameRunOf(ref[1..], rest);
    assert e[..|ref|] == ref;
    assert e[|ref|..] == rest;
  }

  /** Text without a sigil contributes no placeholder. */
  lemma {:induction false} GapPlaceholders(g: string, rest: string)
    requires NoSigil(g)
    ensures Placeholders(g + rest) == Placeholders(rest)
  {
    if g == [] {
      assert g + rest == rest;
    } else {
      assert (g + rest)[1..] == g[1..] + rest;
      GapPlaceholders(g[1..], rest);
    }
  }

  /** An expression cut into literal text and placeholder references. */
  datatype Piece = Gap(text: string) | Ref(text: string)

  function Render(pieces: seq<Piece>): string
  {
    if pieces == [] then "" else pieces[0].text + Render(pieces[1..])
  }

  lemma {:induction false} RenderAppend(a: seq<Piece>, b: seq<Piece>)
    ensures Render(a + b) == Render(a) + Render(b)
  {
    if a == [] {
      assert a + b == b;
    } else {
      assert (a + b)[1..] == a[1..] + b;
      RenderAppend(a[1..], b);
    }
  }

  function Refs(pieces: seq<Piece>): set<string>
  {
    if pieces == [] then {}
    else (if pieces[0].Ref? then {pieces[0].text} else {}) + Refs(pieces[1..])
  }

  /** A gap holds no sigil; a reference is a sigil and a name, and a non-name character follows it. */
  predicate Fits(piece: Piece, next: seq<Piece>)
  {
    match piece
    case Gap(t) => NoSigil(t)
    case Ref(t) =>
      |t| >= 1 && (t[0] == '#' || t[0] == ':') && AllNameChars(t[1..])
      && (next != [] ==> next[0].Gap? && next[0].text != [] && !IsNameChar(next[0].text[0]))
  }

  predicate WellSeparated(pieces: seq<Piece>)
  {
    pieces == [] || (Fits(pieces[0], pieces[1..]) && WellSeparated(pieces[1..]))
  }

  /** Scanning a rendered piece list finds exactly its references. */
  lemma {:induction false} RenderPlaceholders(pieces: seq<Piece>)
    requires WellSeparated(pieces)
    ensures Placeholders(Render(pieces)) == Refs(pieces)
  {
    if pieces != [] {
      var rest := pieces[1..];
      RenderPlaceholders(rest);
      match pieces[0]
      case Gap(t) =>
        GapPlaceholders(t, Render(rest));
      case Ref(t) =>
        if rest != [] {
          assert Render(rest) == rest[0].text + Render(rest[1..]);
        }
        RefPlaceholders(t, Render(rest));
    }
  }

  const PartitionPieces: seq<Piece> := [Ref("#pk"), Gap(" = "), Ref(":pk")]

  lemma {:induction false} SeparatedAppend(a: seq<Piece>, b: seq<Piece>)
    requires WellSeparated(a) && WellSeparated(b)
    requires a != [] && b != [] ==> Fits(a[|a| - 1], b)
    ensures WellSeparated(a + b)
  {
    if a == [] {
      assert a + b == b;
    } else {
      var tail := a[1..];
      assert (a + b)[0] == a[0];
      assert (a + b)[1..] == tail + b;
      if tail == [] {
        assert tail + b == b;
        assert Fits(a[0], b);
      } else {
        assert tail[|tail| - 1] == a[|a| - 1];
        assert (tail + b)[0] == tail[0];
        assert Fits(a[0], tail);
        assert Fits(a[0], tail + b);
      }
      SeparatedAppend(tail, b);
    }
  }

  lemma {:induction false} RefsAppend(a: seq<Piece>, b: seq<Piece>)
    ensures Refs(a + b) == Refs(a) + Refs(b)
  {
    if a == [] {
      assert a + b == b;
    } else {
      assert (a + b)[1..] == a[1..] + b;
      RefsAppend(a[1..], b);
    }
  }

  /** A sort clause that starts with a gap adds its references to those of `#pk = :pk`. */
  lemma WithPartitionClause(e: string, clause: seq<Piece>)
    requires WellSeparated(clause)
    requires clause != [] ==> clause[0].Gap? && clause[0].text != [] && !IsNameChar(clause[0].text[0])
    requires e == "#pk = :pk" + Render(clause)
    ensures Placeholders(e) == {"#pk", ":pk"} + Refs(clause)
  {
    assert WellSeparated(PartitionPieces) && Refs(PartitionPieces) == {"#pk", ":pk"};
    assert Render(PartitionPieces) == "#pk = :pk";
    SeparatedAppend(PartitionPieces, clause);
    RenderAppend(PartitionPieces, clause);
    RefsAppend(PartitionPieces, clause);
    RenderPlaceholders(PartitionPieces + clause);
  }

  lemma ComparisonClauseFacts(op: string)
    requires NoSigil(op)
    ensures var p := [Gap(" AND "), Ref("#sk"), Gap(" " + op + " "), Ref(":sk")];
      WellSeparated(p) && Render(p) == " AND #sk " + op + " :sk" && Refs(p) == {"#sk", ":sk"}
  {
    var gap := " " + op + " ";
    assert NoSigil(gap);
    var p := [Gap(" AND "), Ref("#sk"), Gap(gap), Ref(":sk")];
    assert WellSeparated(p[3..]);
    assert WellSeparated(p[2..]) by { assert p[2..][1..] == p[3..]; }
    assert WellSeparated(p[1..]) by { assert p[1..][1..] == p[2..]; assert gap[0] == ' '; }
    assert Render(p[3..]) == ":sk";
    assert Render(p[2..]) == gap + Render(p[3..]) by { assert p[2..][1..] == p[3..]; }
    assert Render(p[1..]) == "#sk" + Render(p[2..]) by { assert p[1..][1..] == p[2..]; }
    assert Refs(p[3..]) == {":sk"} by { assert p[3..] == [Ref(":sk")]; }
    assert Refs(p[2..]) == {":sk"} by { assert p[2..][1..] == p[3..]; }
    assert Refs(p[1..]) == {"#sk", ":sk"} by { assert p[1..][1..] == p[2..]; }
  }

  lemma BeginsWithClauseFacts()
    ensures var p := [Gap(" AND begins_with("), Ref("#sk"), Gap(", "), Ref(":sk"), Gap(")")];
      WellSeparated(p) && Render(p) == " AND begins_with(#sk, :sk)" && Refs(p) == {"#sk", ":sk"}
  {
  }

  lemma BetweenLeftFacts()
    ensures var a := [Gap(" AND "), Ref("#sk"), Gap(" BETWEEN ")];
      WellSeparated(a) && Render(a) == " AND #sk BETWEEN " && Refs(a) == {"#sk"}
  {
  }

  lemma BetweenRightFacts()
    ensures var b := [Ref(":sk"), Gap(" AND "), Ref(":sk2")];
      WellSeparated(b) && Render(b) == ":sk AND :sk2" && Refs(b) == {":sk", ":sk2"}
  {
  }

  lemma BetweenClauseFacts(a: seq<Piece>, b: seq<Piece>)
    requires a == [Gap(" AND "), Ref("#sk"), Gap(" BETWEEN ")]
    requires b == [Ref(":sk"), Gap(" AND "), Ref(":sk2")]
    ensures WellSeparated(a + b) && Render(a + b) == " AND #sk BETWEEN " + ":sk AND :sk2"
    ensures Refs(a + b) == {"#sk", ":sk", ":sk2"}
  {
    BetweenLeftFacts();
    BetweenRightFacts();
    assert Fits(a[|a| - 1], b);
    SeparatedAppend(a, b);
    RenderAppend(a, b);
    RefsAppend(a, b);
  }

  lemma BeginsWithExpression(e: string)
    requires e == "#pk = :pk" + " AND begins_with(#sk, :sk)"
    ensures Placeholders(e) == {"#pk", ":pk", "#sk", ":sk"}
  {
    var p := [Gap(" AND begins_with("), Ref("#sk"), Gap(", "), Ref(":sk"), Gap(")")];
    BeginsWithClauseFacts();
    WithPartitionClause(e, p);
  }

  lemma BetweenExpression(e: string)
    requires e == "#pk = :pk" + " AND #sk BETWEEN :sk AND :sk2"
    ensures Placeholders(e) == {"#pk", ":pk", "#sk", ":sk", ":sk2"}
  {
    var a := [Gap(" AND "), Ref("#sk"), Gap(" BETWEEN ")];
    var b := [Ref(":sk"), Gap(" AND "), Ref(":sk2")];
    BetweenClauseFacts(a, b);
    assert e == "#pk = :pk" + (" AND #sk BETWEEN " + ":sk AND :sk2");
    WithPartitionClause(e, a + b);
  }

  lemma ComparisonExpression(e: string, op: string)
    requires ComparisonOperator(op)
    requires e == "#pk = :pk" + (" AND #sk " + op + " :sk")
    ensures Placeholders(e) == {"#pk", ":pk", "#sk", ":sk"}
  {
    var p := [Gap(" AND "), Ref("#sk"), Gap(" " + op + " "), Ref(":sk")];
    assert NoSigil(op);
    ComparisonClauseFacts(op);
    WithPartitionClause(e, p);
  }

  /** The placeholders each expression refers to. */
  lemma {:induction false} ExpressionPlaceholders(condition: string)
    ensures Placeholders(ConditionExpression(condition)) ==
      if condition == "between" then {"#pk", ":pk", "#sk", ":sk", ":sk2"}
      else if KnownOperator(condition) then {"#pk", ":pk", "#sk", ":sk"}
      else {"#pk", ":pk"}
  {
    var e := ConditionExpression(condition);
    if condition == "begins_with" {
      BeginsWithExpression(e);
    } else if condition == "between" {
      BetweenExpression(e);
    } else if KnownOperator(condition) {
      ComparisonExpression(e, condition);
    } else {
      assert "#pk = :pk" + Render([]) == e;
      WithPartitionClause(e, []);
    }
  }

  /** Every expression opens with the partition clause. */
  lemma ExpressionStartsWithPartitionClause(condition: string)
    ensures |ConditionExpression(condition)| >= 9 && ConditionExpression(condition)[..9] == "#pk = :pk"
  {
  }

  /**
   * `#pk` is bound to the partition key and `:pk` to its value as S;
   * `#sk`/`:sk` are bound exactly when both a sort key and a sort value are
   * given, and then to those.
   */
  lemma KeyConditionBindings(partitionKey: string, partitionValue: string, sortKey: string, sortValue: string, condition: string)
    ensures var c := KeyConditionFor(partitionKey, partitionValue, sortKey, sortValue, condition);
      && |c.expression| >= 9 && c.expression[..9] == "#pk = :pk"
      && (!HasSortClause(sortKey, sortValue) ==> c.expression == "#pk = :pk")
      && c.names.Keys <= {"#pk", "#sk"} && c.values.Keys <= {":pk", ":sk"}
      && "#pk" in c.names && c.names["#pk"] == partitionKey
      && ":pk" in c.values && c.values[":pk"] == S(partitionValue)
      && ("#sk" in c.names <==> HasSortClause(sortKey, sortValue))
      && (":sk" in c.values <==> HasSortClause(sortKey, sortValue))
      && (HasSortClause(sortKey, sortValue) ==> c.names["#sk"] == sortKey && c.values[":sk"] == S(sortValue))
  {
    ExpressionStartsWithPartitionClause(condition);
  }

  /**
   * Every placeholder the expression refers to is bound, except `:sk2` of
   * `between`; every bound placeholder is referred to, except `#sk`/`:sk`
   * under an unrecognised operator.
   */
  lemma OnlySk2Unbound(refs: set<string>, bound: set<string>)
    requires refs == {"#pk", ":pk", "#sk", ":sk", ":sk2"} && bound == {"#pk", "#sk", ":pk", ":sk"}
    ensures refs - bound == {":sk2"}
  {
  }

  lemma SortClauseReferences(refs: set<string>, bound: set<string>, condition: string)
    requires refs == Placeholders(ConditionExpression(condition)) && bound == {"#pk", "#sk", ":pk", ":sk"}
    ensures refs - bound == (if condition == "between" then {":sk2"} else {})
    ensures bound - refs == (if KnownOperator(condition) then {} else {"#sk", ":sk"})
  {
    ExpressionPlaceholders(condition);
    if condition == "between" {
      OnlySk2Unbound(refs, bound);
    }
  }

  lemma BoundKeys(partitionKey: string, partitionValue: string, sortKey: string, sortValue: string, condition: string)
    ensures var c := KeyConditionFor(partitionKey, partitionValue, sortKey, sortValue, condition);
      Bound(c) == if HasSortClause(sortKey, sortValue) then {"#pk", "#sk", ":pk", ":sk"} else {"#pk", ":pk"}
  {
  }

  lemma PartitionOnlyReferences(refs: set<string>, bound: set<string>)
    requires refs == Placeholders(ConditionExpression("")) && bound == {"#pk", ":pk"}
    ensures refs - bound == {} && bound - refs == {}
  {
    ExpressionPlaceholders("");
    assert !KnownOperator("");
  }

  lemma {:induction false} KeyConditionReferences(partitionKey: string, partitionValue: string, sortKey: string, sortValue: string, condition: string)
    ensures var c := KeyConditionFor(partitionKey, partitionValue, sortKey, sortValue, condition);
      && Placeholders(c.expression) - Bound(c) ==
           (if HasSortClause(sortKey, sortValue) && condition == "between" then {":sk2"} else {})
      && Bound(c) - Placeholders(c.expression) ==
           (if HasSortClause(sortKey, sortValue) && !KnownOperator(condition) then {"#sk", ":sk"} else {})
  {
    var c := KeyConditionFor(partitionKey, partitionValue, sortKey, sortValue, condition);
    BoundKeys(partitionKey, partitionValue, sortKey, sortValue, condition);
    var refs, bound := Placeholders(c.expression), Bound(c);
    if HasSortClause(sortKey, sortValue) {
      assert c.expression == ConditionExpression(condition);
      SortClauseReferences(refs, bound, condition);
    } else {
      assert c.expression == ConditionExpression("");
      PartitionOnlyReferences(refs, bound);
    }
  }

  // ---------------------------------------------------------------------------
  // Continuation token, in both directions

  /** The type switch on the start key: string becomes S, int64 becomes N; any other value is dropped. */
  function StartKeyOf(token: Token): (key: map<string, AttributeValue>)
    ensures key.Keys == set k | k in token && (token[k].NString? || token[k].NInt?)
  {
    map k | k in token && (token[k].NString? || token[k].NInt?) ::
      if token[k].NString? then S(token[k].s) else N(FormatInt(token[k].i))
  }

  /** LastEvaluatedKey as the explorer keeps it: every value replaced by its display string. */
  function TokenOf(lastEvaluatedKey: map<string, AttributeValue>): (r: Token)
    ensures r.Keys == lastEvaluatedKey.Keys
    ensures forall k :: k in r ==> r[k].NString?
    ensures forall k :: k in lastEvaluatedKey && lastEvaluatedKey[k].S? ==> r[k] == NString(lastEvaluatedKey[k].s)
  {
    map k | k in lastEvaluatedKey :: NString(Format(lastEvaluatedKey[k]))
  }

  /** Handing a received token back turns every key attribute into S of its display text. */
  lemma TokenRoundTrip(lastEvaluatedKey: map<string, AttributeValue>)
    ensures StartKeyOf(TokenOf(lastEvaluatedKey)) == map k | k in lastEvaluatedKey :: S(Format(lastEvaluatedKey[k]))
  {
  }

  /** A token made only of S attributes comes back exactly. */
  lemma {:induction false} StringTokenRoundTrips(lastEvaluatedKey: map<string, AttributeValue>)
    requires forall k :: k in lastEvaluatedKey ==> lastEvaluatedKey[k].S?
    ensures StartKeyOf(TokenOf(lastEvaluatedKey)) == lastEvaluatedKey
  {
    TokenRoundTrip(lastEvaluatedKey);
    var back := StartKeyOf(TokenOf(lastEvaluatedKey));
    forall k | k in lastEvaluatedKey ensures back[k] == lastEvaluatedKey[k] {
      assert Format(lastEvaluatedKey[k]) == lastEvaluatedKey[k].s;
    }
  }

  /** An N key attribute comes back as an S with the same text, so the start key differs from what the backend sent. */
  lemma NumberKeyComesBackAsString(lastEvaluatedKey: map<string, AttributeValue>, k: string, text: string)
    requires k in lastEvaluatedKey && lastEvaluatedKey[k] == N(text)
    ensures k in StartKeyOf(TokenOf(lastEvaluatedKey))
    ensures StartKeyOf(TokenOf(lastEvaluatedKey))[k] == S(text)
    ensures StartKeyOf(TokenOf(lastEvaluatedKey)) != lastEvaluatedKey
  {
    TokenRoundTrip(lastEvaluatedKey);
  }

  /** The loop building `exclKey` from a token. */
  method ExclusiveStartKey(token: Token) returns (key: map<string, AttributeValue>)
    ensures key == StartKeyOf(token)
  {
    key := map[];
    var rest := token.Keys;
    while rest != {}
      invariant rest <= token.Keys
      invariant key == map k | k in token && k !in rest && (token[k].NString? || token[k].NInt?) ::
                         if token[k].NString? then S(token[k].s) else N(FormatInt(token[k].i))
      decreases rest
    {
      var k :| k in rest;
      if token[k].NString? {
        key := key[k := S(token[k].s)];
      } else if token[k].NInt? {
        key := key[k := N(FormatInt(token[k].i))];
      }
      rest := rest - {k};
    }
  }

  /** The loop building `lastKey` from the backend's LastEvaluatedKey. */
  method LastKey(lastEvaluatedKey: map<string, AttributeValue>) returns (token: Token)
    ensures token == TokenOf(lastEvaluatedKey)
  {
    token := map[];
    var rest := lastEvaluatedKey.Keys;
    while rest != {}
      invariant rest <= lastEvaluatedKey.Keys
      invariant token == map k | k in lastEvaluatedKey && k !in rest :: NString(Format(lastEvaluatedKey[k]))
      decreases rest
    {
      var k :| k in rest;
      token := token[k := NString(Format(lastEvaluatedKey[k]))];
      rest := rest - {k};
    }
  }

  // ---------------------------------------------------------------------------
  // Items

  function DisplayItemOf(item: map<string, AttributeValue>): DisplayItem
  {
    map k | k in item :: Format(item[k])
  }

  function RawItemOf(item: map<string, AttributeValue>, parsesAsFloat: string -> bool): RawItem
  {
    map k | k in item :: ToNative(item[k], parsesAsFloat)
  }

  /** The converted page. */
  function ResultOf(page: Page, parsesAsFloat: string -> bool): QueryResult
  {
    QueryResult(
      seq(|page.items|, i requires 0 <= i < |page.items| => DisplayItemOf(page.items[i])),
      seq(|page.items|, i requires 0 <= i < |page.items| => RawItemOf(page.items[i], parsesAsFloat)),
      if page.lastEvaluatedKey.Some? then Some(TokenOf(page.lastEvaluatedKey.value)) else None)
  }

  /** Both projections have one item per returned item, with the same keys, each value derived from the same attribute. */
  predicate Paired(r: QueryResult)
  {
    |r.items| == |r.rawItems| && forall i :: 0 <= i < |r.items| ==> r.items[i].Keys == r.rawItems[i].Keys
  }

  lemma ResultProjectionsPaired(page: Page, parsesAsFloat: string -> bool)
    ensures var r := ResultOf(page, parsesAsFloat);
      && Paired(r) && |r.items| == |page.items|
      && (forall i :: 0 <= i < |page.items| ==> r.items[i].Keys == page.items[i].Keys)
      && (forall i, k :: 0 <= i < |page.items| && k in page.items[i] ==>
            r.items[i][k] == Format(page.items[i][k]) && r.rawItems[i][k] == ToNative(page.items[i][k], parsesAsFloat))
      && (r.lastEvaluatedKey.Some? <==> page.lastEvaluatedKey.Some?)
  {
  }

  /** The inner loop over one item's attributes, filling both maps together. */
  method ConvertItem(item: map<string, AttributeValue>, parsesAsFloat: string -> bool) returns (display: DisplayItem, raw: RawItem)
    ensures display == DisplayItemOf(item) && raw == RawItemOf(item, parsesAsFloat)
  {
    display, raw := map[], map[];
    var rest := item.Keys;
    while rest != {}
      invariant rest <= item.Keys
      invariant display == map k | k in item && k !in rest :: Format(item[k])
      invariant raw == map k | k in item && k !in rest :: ToNative(item[k], parsesAsFloat)
      decreases rest
    {
      var k :| k in rest;
      display := display[k := Format(item[k])];
      raw := raw[k := ToNative(item[k], parsesAsFloat)];
      rest := rest - {k};
    }
  }

  /** The conversion loops that follow a successful Query or Scan. */
  method ConvertPage(page: Page, parsesAsFloat: string -> bool) returns (r: QueryResult)
    ensures r == ResultOf(page, parsesAsFloat)
  {
    var items: seq<DisplayItem> := [];
    var rawItems: seq<RawItem> := [];
    for i := 0 to |page.items|
      invariant items == seq(i, j requires 0 <= j < i => DisplayItemOf(page.items[j]))
      invariant rawItems == seq(i, j requires 0 <= j < i => RawItemOf(page.items[j], parsesAsFloat))
    {
      var display, raw := ConvertItem(page.items[i], parsesAsFloat);
      items := items + [display];
      rawItems := rawItems + [raw];
    }
    var lastKey: Option<Token> := None;
    if page.lastEvaluatedKey.Some? {
      var token := LastKey(page.lastEvaluatedKey.value);
      lastKey := Some(token);
    }
    r := QueryResult(items, rawItems, lastKey);
  }

  // ---------------------------------------------------------------------------
  // Query and Scan

  function QueryInputOf(p: QueryParams, exclusiveStartKey: Option<Token>): QueryInput
  {
    QueryInput(
      p.tableName, PageLimit,
      KeyConditionFor(p.partitionKey, p.partitionValue, p.sortKey, p.sortValue, p.condition),
      if exclusiveStartKey.Some? then Some(StartKeyOf(exclusiveStartKey.value)) else None)
  }

  function ScanInputOf(tableName: string, exclusiveStartKey: Option<Token>): ScanInput
  {
    ScanInput(tableName, PageLimit, if exclusiveStartKey.Some? then Some(StartKeyOf(exclusiveStartKey.value)) else None)
  }

  /** The outcome of `Client.Query` against a backend. */
  function QueryOf(svc: QueryInput -> Result<Page, BackendError>, parsesAsFloat: string -> bool, p: QueryParams, exclusiveStartKey: Option<Token>): (r: Result<QueryResult, BackendError>)
    ensures r.Failure? <==> svc(QueryInputOf(p, exclusiveStartKey)).Failure?
    ensures r.Failure? ==> r.error == svc(QueryInputOf(p, exclusiveStartKey)).error
    ensures r.Success? ==> var page := svc(QueryInputOf(p, exclusiveStartKey)).value;
      && Paired(r.value) && |r.value.items| == |page.items|
      && (r.value.lastEvaluatedKey.Some? <==> page.lastEvaluatedKey.Some?)
  {
    match svc(QueryInputOf(p, exclusiveStartKey))
    case Failure(e) => Failure(e)
    case Success(page) =>
      ResultProjectionsPaired(page, parsesAsFloat);
      Success(ResultOf(page, parsesAsFloat))
  }

  /** The outcome of `Client.Scan` against a backend. */
  function ScanOf(svc: ScanInput -> Result<Page, BackendError>, parsesAsFloat: string -> bool, tableName: string, exclusiveStartKey: Option<Token>): (r: Result<QueryResult, BackendError>)
    ensures r.Failure? <==> svc(ScanInputOf(tableName, exclusiveStartKey)).Failure?
    ensures r.Failure? ==> r.error == svc(ScanInputOf(tableName, exclusiveStartKey)).error
    ensures r.Success? ==> var page := svc(ScanInputOf(tableName, exclusiveStartKey)).value;
      && Paired(r.value) && |r.value.items| == |page.items|
      && (r.value.lastEvaluatedKey.Some? <==> page.lastEvaluatedKey.Some?)
  {
    match svc(ScanInputOf(tableName, exclusiveStartKey))
    case Failure(e) => Failure(e)
    case Success(page) =>
      ResultProjectionsPaired(page, parsesAsFloat);
      Success(ResultOf(page, parsesAsFloat))
  }

  /** `Client.Query`: fills the request in place, issues it once, converts the page. */
  method Query(svc: QueryInput -> Result<Page, BackendError>, parsesAsFloat: string -> bool, p: QueryParams, exclusiveStartKey: Option<Token>)
    returns (r: Result<QueryResult, BackendError>)
    ensures r == QueryOf(svc, parsesAsFloat, p, exclusiveStartKey)
  {
    var expression := "#pk = :pk";
    var names := map["#pk" := p.partitionKey];
    var values := map[":pk" := S(p.partitionValue)];
    var start: Option<map<string, AttributeValue>> := None;
    if exclusiveStartKey.Some? {
      var key := ExclusiveStartKey(exclusiveStartKey.value);
      start := Some(key);
    }
    if p.sortKey != "" && p.sortValue != "" {
      expression := ConditionExpression(p.condition);
      names := names["#sk" := p.sortKey];
      values := values[":sk" := S(p.sortValue)];
    }
    var response := svc(QueryInput(p.tableName, PageLimit, KeyCondition(expression, names, values), start));
    if response.Failure? {
      return Failure(response.error);
    }
    var converted := ConvertPage(response.value, parsesAsFloat);
    r := Success(converted);
  }

  /** `Client.Scan`: the same batching and token handling without a condition. */
  method Scan(svc: ScanInput -> Result<Page, BackendError>, parsesAsFloat: string -> bool, tableName: string, exclusiveStartKey: Option<Token>)
    returns (r: Result<QueryResult, BackendError>)
    ensures r == ScanOf(svc, parsesAsFloat, tableName, exclusiveStartKey)
  {
    var start: Option<map<string, AttributeValue>> := None;
    if exclusiveStartKey.Some? {
      var key := ExclusiveStartKey(exclusiveStartKey.value);
      start := Some(key);
    }
    var response := svc(ScanInput(tableName, PageLimit, start));
    if response.Failure? {
      return Failure(response.error);
    }
    var converted := ConvertPage(response.value, parsesAsFloat);
    r := Success(converted);
  }
}
