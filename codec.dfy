/**
 * DynamoDB's tagged attribute values and the explorer's two conversions of them
 * (aws/dynamodb.go:89-174): a display string, and a native value tree that is
 * later serialised as JSON.
 */
module AttributeCodec {
  import opened Wrappers
  import opened GoText

  /**
   * One attribute value: exactly one member of the SDK's union is populated.
   * A map (M) is given as its entries in the order Go's map iteration happened
   * to visit them; that order is unspecified, so nothing below depends on it
   * beyond the display text of M. `Unknown` stands for any member the SDK does
   * not name (and for a nil value), which both conversions send to a fallback.
   */
  datatype AttributeValue =
    | S(s: string)
    | N(n: string)
    | Bool(b: bool)
    | Null
    | B(bytes: seq<bv8>)
    | L(elems: seq<AttributeValue>)
    | M(entries: seq<Entry>)
    | SS(strs: seq<string>)
    | NS(nums: seq<string>)
    | BS(blobs: seq<seq<bv8>>)
    | Unknown

  datatype Entry = Entry(name: string, value: AttributeValue)

  function Names(entries: seq<Entry>): set<string>
  {
    set i | 0 <= i < |entries| :: entries[i].name
  }

  predicate DistinctNames(entries: seq<Entry>)
  {
    forall i, j :: 0 <= i < j < |entries| ==> entries[i].name != entries[j].name
  }

  /** Every M in the value has distinct keys, as a Go map does. */
  predicate WellFormed(v: AttributeValue)
    decreases v
  {
    match v
    case L(elems) => forall i :: 0 <= i < |elems| ==> WellFormed(elems[i])
    case M(entries) =>
      DistinctNames(entries) && forall i :: 0 <= i < |entries| ==> WellFormed(entries[i].value)
    case _ => true
  }

  /** `fmt.Sprintf("<binary: %d bytes>", n)`. */
  function BinaryPlaceholder(length: nat): string
  {
    "<binary: " + Decimal(length) + " bytes>"
  }

  function BinaryPlaceholders(blobs: seq<seq<bv8>>): (r: seq<string>)
    ensures |r| == |blobs|
    ensures forall i :: 0 <= i < |blobs| ==> r[i] == BinaryPlaceholder(|blobs[i]|)
  {
    seq(|blobs|, i requires 0 <= i < |blobs| => BinaryPlaceholder(|blobs[i]|))
  }

  /** `formatAttributeValue`: the text shown in the results and detail tables. */
  function Format(v: AttributeValue): (r: string)
    ensures v.L? || v.SS? || v.NS? || v.BS? ==> |r| >= 2 && r[0] == '[' && r[|r| - 1] == ']'
    ensures v.M? ==> |r| >= 2 && r[0] == '{' && r[|r| - 1] == '}'
    decreases v
  {
    match v
    case S(s) => s
    case N(n) => n
    case B(bytes) => BinaryPlaceholder(|bytes|)
    case SS(strs) => "[" + Join(strs, ", ") + "]"
    case NS(nums) => "[" + Join(nums, ", ") + "]"
    case BS(blobs) => "[" + Join(BinaryPlaceholders(blobs), ", ") + "]"
    case L(elems) =>
      "[" + Join(seq(|elems|, i requires 0 <= i < |elems| => Format(elems[i])), ", ") + "]"
    case M(entries) =>
      "{" + Join(seq(|entries|, i requires 0 <= i < |entries| =>
                       entries[i].name + ": " + Format(entries[i].value)), ", ") + "}"
    case Null => "null"
    case Bool(b) => if b then "true" else "false"
    case Unknown => "unknown"
  }

  /**
   * The Go values `attributeValueToInterface` produces: string, int64,
   * float64 (kept as the text it was parsed from: float formatting is not
   * modelled), bool, nil, []interface{}, map[string]interface{} and []string.
   */
  datatype Native =
    | NString(s: string)
    | NInt(i: int)
    | NFloat(text: string)
    | NBool(b: bool)
    | NNull
    | NList(elems: seq<Native>)
    | NMap(fields: map<string, Native>)
    | NStrings(strs: seq<string>)

  /**
   * The N rule: an int64 when the text is a base-10 int64, else a float64
   * when `strconv.ParseFloat(text, 64)` accepts it (that parser is the
   * parameter `parsesAsFloat`), else the text itself.
   */
  function NativeNumber(text: string, parsesAsFloat: string -> bool): (r: Native)
    ensures r.NInt? || r.NFloat? || r.NString?
    ensures r.NInt? <==> ParseInt64(text).Some?
    ensures r.NInt? ==> IsInt64(r.i) && Some(r.i) == ParseInt64(text)
    ensures r.NFloat? <==> ParseInt64(text).None? && parsesAsFloat(text)
    ensures r.NFloat? ==> r.text == text
    ensures r.NString? ==> r.s == text
  {
    match ParseInt64(text)
    case Some(i) => NInt(i)
    case None => if parsesAsFloat(text) then NFloat(text) else NString(text)
  }

  /** `attributeValueToInterface`: the structured value kept for JSON export. */
  function ToNative(v: AttributeValue, parsesAsFloat: string -> bool): (r: Native)
    ensures r.NList? <==> v.L?
    ensures r.NMap? <==> v.M?
    ensures r.NBool? <==> v.Bool?
    ensures r.NNull? <==> v.Null?
    ensures r.NStrings? <==> v.SS? || v.NS? || v.BS?
    ensures r.NInt? || r.NFloat? ==> v.N?
    decreases v, 1
  {
    match v
    case S(s) => NString(s)
    case N(n) => NativeNumber(n, parsesAsFloat)
    case Bool(b) => NBool(b)
    case Null => NNull
    case L(elems) =>
      NList(seq(|elems|, i requires 0 <= i < |elems| => ToNative(elems[i], parsesAsFloat)))
    case M(entries) => NMap(NativeFields(entries, parsesAsFloat))
    case SS(strs) => NStrings(strs)
    case NS(nums) => NStrings(nums)
    case BS(blobs) => NStrings(BinaryPlaceholders(blobs))
    case B(bytes) => NString(BinaryPlaceholder(|bytes|))
    case Unknown => NString("unknown")
  }

  /** The loop `m[k] = attributeValueToInterface(av)` over the entries of an M. */
  function NativeFields(entries: seq<Entry>, parsesAsFloat: string -> bool): map<string, Native>
    decreases entries, 0
  {
    if entries == [] then map[]
    else
      var last := entries[|entries| - 1];
      NativeFields(entries[..|entries| - 1], parsesAsFloat)[last.name := ToNative(last.value, parsesAsFloat)]
  }

  /** The native map has exactly the keys of the M. */
  lemma {:induction false} NativeFieldsKeys(entries: seq<Entry>, parsesAsFloat: string -> bool)
    ensures NativeFields(entries, parsesAsFloat).Keys == Names(entries)
  {
    if entries != [] {
      var init := entries[..|entries| - 1];
      NativeFieldsKeys(init, parsesAsFloat);
      assert Names(entries) == Names(init) + {entries[|entries| - 1].name} by {
        forall x | x in Names(entries) ensures x in Names(init) + {entries[|entries| - 1].name} {
          var i :| 0 <= i < |entries| && entries[i].name == x;
          if i < |entries| - 1 { assert init[i] == entries[i]; }
        }
        forall x | x in Names(init) ensures x in Names(entries) {
          var i :| 0 <= i < |init| && init[i].name == x;
          assert entries[i] == init[i];
        }
      }
    }
  }

  /** With distinct keys, each key maps to the conversion of its own value. */
  lemma {:induction false} NativeFieldsAt(entries: seq<Entry>, parsesAsFloat: string -> bool, i: nat)
    requires DistinctNames(entries) && i < |entries|
    ensures entries[i].name in NativeFields(entries, parsesAsFloat)
    ensures NativeFields(entries, parsesAsFloat)[entries[i].name] == ToNative(entries[i].value, parsesAsFloat)
  {
    var n := |entries| - 1;
    if i < n {
      var init := entries[..n];
      assert init[i] == entries[i];
      NativeFieldsAt(init, parsesAsFloat, i);
      assert entries[n].name != entries[i].name;
    }
  }

  /**
   * The shape a native value must have to describe an attribute value: the
   * same variant family, lists of the same length element by element, maps
   * with exactly the same keys, sets passed through, binaries replaced by the
   * display placeholder.
   */
  predicate SameShape(v: AttributeValue, n: Native, parsesAsFloat: string -> bool)
    decreases v
  {
    match v
    case S(s) => n == NString(s)
    case N(text) =>
      (n.NInt? && ParseInt64(text) == Some(n.i))
      || (n.NFloat? && n.text == text && parsesAsFloat(text))
      || n == NString(text)
    case Bool(b) => n == NBool(b)
    case Null => n == NNull
    case B(bytes) => n == NString(Format(v))
    case L(elems) =>
      n.NList? && |n.elems| == |elems|
      && forall i :: 0 <= i < |elems| ==> SameShape(elems[i], n.elems[i], parsesAsFloat)
    case M(entries) =>
      n.NMap? && n.fields.Keys == Names(entries)
      && forall i :: 0 <= i < |entries| ==>
           SameShape(entries[i].value, n.fields[entries[i].name], parsesAsFloat)
    case SS(strs) => n == NStrings(strs)
    case NS(nums) => n == NStrings(nums)
    case BS(blobs) =>
      n.NStrings? && |n.strs| == |blobs|
      && forall i :: 0 <= i < |blobs| ==> n.strs[i] == Format(B(blobs[i]))
    case Unknown => n == NString(Format(v))
  }

  /** The native conversion preserves the shape of every well-formed value. */
  lemma {:induction false} ToNativePreservesShape(v: AttributeValue, parsesAsFloat: string -> bool)
    requires WellFormed(v)
    ensures SameShape(v, ToNative(v, parsesAsFloat), parsesAsFloat)
    decreases v
  {
    match v
    case L(elems) =>
      var n := ToNative(v, parsesAsFloat);
      forall i | 0 <= i < |elems|
        ensures SameShape(elems[i], n.elems[i], parsesAsFloat)
      {
        ToNativePreservesShape(elems[i], parsesAsFloat);
      }
    case M(entries) =>
      var n := ToNative(v, parsesAsFloat);
      NativeFieldsKeys(entries, parsesAsFloat);
      forall i | 0 <= i < |entries|
        ensures SameShape(entries[i].value, n.fields[entries[i].name], parsesAsFloat)
      {
        NativeFieldsAt(entries, parsesAsFloat, i);
        ToNativePreservesShape(entries[i].value, parsesAsFloat);
      }
    case _ =>
  }

  /**
   * Every scalar keeps its display text in the native tree: S, B and
   * unknown values become that very string, an integer N prints back to its
   * display text, a float N keeps it, BOOL and NULL agree with `true`,
   * `false` and `null`.
   */
  lemma ScalarNativeMatchesDisplay(v: AttributeValue, parsesAsFloat: string -> bool)
    requires !v.L? && !v.M? && !v.SS? && !v.NS? && !v.BS?
    ensures var n := ToNative(v, parsesAsFloat);
      && (v.S? || v.B? || v.Unknown? ==> n == NString(Format(v)))
      && (v.N? ==> (n.NInt? && ParseInt64(Format(v)) == Some(n.i))
                   || (n.NFloat? && n.text == Format(v))
                   || n == NString(Format(v)))
      && (v.Bool? ==> n == NBool(Format(v) == "true"))
      && (v.Null? <==> n == NNull)
      && (v.Null? ==> Format(v) == "null")
  {
  }

  /** Empty collections show as bare brackets. */
  lemma EmptyCollectionDisplay()
    ensures Format(L([])) == "[]" && Format(SS([])) == "[]" && Format(NS([])) == "[]"
    ensures Format(BS([])) == "[]" && Format(M([])) == "{}"
  {
  }

  /** A display string is empty only for an empty S or N text. */
  lemma DisplayEmptyOnlyForEmptyText(v: AttributeValue)
    ensures Format(v) == "" <==> v == S("") || v == N("")
  {
  }

  /** A list of strings shows exactly like a string set (or number set) of the same members. */
  lemma {:induction false} StringListDisplaysLikeSet(strs: seq<string>)
    ensures Format(L(seq(|strs|, i requires 0 <= i < |strs| => S(strs[i])))) == Format(SS(strs))
    ensures Format(SS(strs)) == Format(NS(strs))
  {
    var elems := seq(|strs|, i requires 0 <= i < |strs| => S(strs[i]));
    assert seq(|elems|, i requires 0 <= i < |elems| => Format(elems[i])) == strs;
  }

  /**
   * Any list shows like a string set whose members are the element texts,
   * so its text is those texts joined by ", " in brackets.
   */
  lemma {:induction false} ListDisplaysLikeSetOfElementTexts(elems: seq<AttributeValue>)
    ensures Format(L(elems)) == Format(SS(seq(|elems|, i requires 0 <= i < |elems| => Format(elems[i]))))
  {
    var texts := seq(|elems|, i requires 0 <= i < |elems| => Format(elems[i]));
    assert Format(SS(texts)) == "[" + Join(texts, ", ") + "]";
  }

  /** A binary set shows exactly like a list of the same binaries. */
  lemma {:induction false} BinarySetDisplaysLikeList(blobs: seq<seq<bv8>>)
    ensures Format(BS(blobs)) == Format(L(seq(|blobs|, i requires 0 <= i < |blobs| => B(blobs[i]))))
  {
    var elems := seq(|blobs|, i requires 0 <= i < |blobs| => B(blobs[i]));
    assert seq(|elems|, i requires 0 <= i < |elems| => Format(elems[i])) == BinaryPlaceholders(blobs);
  }

  /**
   * An M shows like a list of its `name: value` pairs, only with braces in
   * place of brackets.
   */
  lemma {:induction false} MapDisplaysLikePairList(entries: seq<Entry>)
    ensures var pairs := seq(|entries|, i requires 0 <= i < |entries| => S(entries[i].name + ": " + Format(entries[i].value)));
      var shown := Format(L(pairs));
      Format(M(entries)) == "{" + shown[1..|shown| - 1] + "}"
  {
    var pairs := seq(|entries|, i requires 0 <= i < |entries| => S(entries[i].name + ": " + Format(entries[i].value)));
    var inner := Join(seq(|pairs|, i requires 0 <= i < |pairs| => Format(pairs[i])), ", ");
    assert seq(|pairs|, i requires 0 <= i < |pairs| => Format(pairs[i]))
        == seq(|entries|, i requires 0 <= i < |entries| => entries[i].name + ": " + Format(entries[i].value));
    var shown := Format(L(pairs));
    assert shown == "[" + inner + "]";
    assert shown[1..|shown| - 1] == inner;
  }

  /** Binaries become the display placeholder in the native tree too, element by element for BS. */
  lemma BinaryNativeMatchesDisplay(bytes: seq<bv8>, blobs: seq<seq<bv8>>, parsesAsFloat: string -> bool)
    ensures ToNative(B(bytes), parsesAsFloat) == NString(Format(B(bytes)))
    ensures ToNative(BS(blobs), parsesAsFloat).NStrings?
    ensures |ToNative(BS(blobs), parsesAsFloat).strs| == |blobs|
    ensures forall i :: 0 <= i < |blobs| ==> ToNative(BS(blobs), parsesAsFloat).strs[i] == Format(B(blobs[i]))
  {
  }

  /**
   * A set's display is its native member list joined by ", " in brackets:
   * SS and NS keep their members, BS its placeholders.
   */
  lemma SetDisplayJoinsNativeMembers(v: AttributeValue, parsesAsFloat: string -> bool)
    requires v.SS? || v.NS? || v.BS?
    ensures ToNative(v, parsesAsFloat).NStrings?
    ensures Format(v) == "[" + Join(ToNative(v, parsesAsFloat).strs, ", ") + "]"
    ensures v.SS? ==> ToNative(v, parsesAsFloat).strs == v.strs
    ensures v.NS? ==> ToNative(v, parsesAsFloat).strs == v.nums
  {
  }

  /** "42" is the integer 42; "3.14" is a float when ParseFloat accepts it; malformed text stays text. */
  lemma NumberFidelity(parsesAsFloat: string -> bool)
    ensures ToNative(N("42"), parsesAsFloat) == NInt(42)
    ensures ToNative(N("-7"), parsesAsFloat) == NInt(-7)
    ensures parsesAsFloat("3.14") ==> ToNative(N("3.14"), parsesAsFloat) == NFloat("3.14")
    ensures !parsesAsFloat("abc") ==> ToNative(N("abc"), parsesAsFloat) == NString("abc")
  {
    assert "42"[..1] == "4" && "4"[..0] == "";
    assert DigitsValue("4") == 4;
    assert DigitsValue("42") == 42;
    assert ParseInt64("42") == Some(42);
    assert "-7"[1..] == "7";
    assert !AllDigits("3.14") by { assert !IsDigit("3.14"[1]); }
    assert !AllDigits("abc") by { assert !IsDigit("abc"[0]); }
  }

  /** An int64 written back in decimal and read as N gives the same integer. */
  lemma IntegerNumberRoundTrip(i: int, parsesAsFloat: string -> bool)
    requires IsInt64(i)
    ensures ToNative(N(FormatInt(i)), parsesAsFloat) == NInt(i)
  {
    ParseFormatInt64(i);
  }
}
