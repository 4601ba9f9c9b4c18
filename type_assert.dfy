/** Run-time checks of the values of an object against a type description
    such as "string | number", "Array<Buffer>" or "number[]"
    (utils/src/assert.ts). */
module TypeAssert {
  import opened Wrappers

  /** A JavaScript value, with just enough structure for `typeof`,
      `Buffer.isBuffer` and `Array.isArray` to tell values apart. */
  datatype Value =
    | Null
    | Undefined
    | Bool(b: bool)
    | Num(n: real)
    | BigInt(i: int)
    | Str(s: string)
    | Sym(description: string)
    | Fn
    | Buffer(bytes: seq<bv8>)
    | Arr(elems: seq<Value>)
    | Obj

  /** One own property of the checked object. The object itself is the
      sequence of its entries in `Object.keys` order. */
  datatype Entry = Entry(key: string, value: Value)

  /** The names a `PrimitiveTypeName` may take. */
  const PrimitiveTypeNames: set<string> :=
    {"string", "number", "bigint", "boolean", "symbol", "undefined",
     "object", "function", "null", "any", "Buffer"}

  /** JavaScript truthiness of an optional string: `undefined` and "" are falsy. */
  predicate Truthy(s: Option<string>) {
    s.Some? && s.value != ""
  }

  // ---------------------------------------------------------------------
  // assert
  // ---------------------------------------------------------------------

  const FailedAssertion := "Failed assertion"

  /** `assert(assertion, sentence)`; a missing sentence is passed as "",
      which the source treats the same way (both are falsy). */
  function Assert(assertion: bool, sentence: string): (r: Result<bool, string>)
    ensures r.Success? <==> assertion
    ensures r.Success? ==> r.value
    ensures r.Failure? ==> |FailedAssertion| <= |r.error| && r.error[..|FailedAssertion|] == FailedAssertion
    ensures r.Failure? ==> (r.error == FailedAssertion <==> sentence == "")
    ensures r.Failure? && sentence != "" ==> r.error[|FailedAssertion|..] == ": " + sentence
  {
    if !assertion then
      Failure(FailedAssertion + (if sentence != "" then ": " + sentence else ""))
    else
      Success(true)
  }

  // ---------------------------------------------------------------------
  // typeOf and is
  // ---------------------------------------------------------------------

  /** `typeOf`: "null" for null, "Buffer" for a Buffer, `typeof v` otherwise. */
  function TypeOf(v: Value): (t: string)
    ensures t in PrimitiveTypeNames && t != "any"
    ensures t == "null" <==> v.Null?
    ensures t == "Buffer" <==> v.Buffer?
    ensures t == "object" <==> v.Arr? || v.Obj?
  {
    match v
    case Null => "null"
    case Buffer(_) => "Buffer"
    case Undefined => "undefined"
    case Bool(_) => "boolean"
    case Num(_) => "number"
    case BigInt(_) => "bigint"
    case Str(_) => "string"
    case Sym(_) => "symbol"
    case Fn => "function"
    case Arr(_) => "object"
    case Obj => "object"
  }

  /** `is(type)(v)`. */
  function Is(t: string, v: Value): (r: bool)
    ensures t == "any" ==> r
    ensures t !in PrimitiveTypeNames ==> !r
    ensures t == "null" ==> (r <==> v.Null?)
    ensures t == "Buffer" ==> (r <==> v.Buffer?)
    ensures t == "object" ==> (r <==> v.Arr? || v.Obj?)
    ensures r && t != "any" ==> TypeOf(v) == t
  {
    t == "any" || TypeOf(v) == t
  }

  /** The names `is` accepts a value under are exactly "any" and its `typeOf`. */
  lemma IsAcceptsExactly(v: Value, t: string)
    ensures Is(t, v) <==> t == "any" || t == TypeOf(v)
    ensures t !in PrimitiveTypeNames ==> !Is(t, v)
  {
  }

  /** The type reported in error messages. */
  function ReadableType(v: Value): string {
    if v.Arr? then "any[]" else TypeOf(v)
  }

  /** The message `assertTypeCheck` throws for `key` holding `v`; a missing
      type description is passed as "", which the source treats the same way. */
  function MismatchMessage(key: string, v: Value, description: string): string {
    if description != "" then
      "Expected " + key + " to be of type '" + description + "', instead got '" + ReadableType(v) + "'."
    else
      key + " failed type assertion. Got type '" + ReadableType(v) + "'."
  }

  // ---------------------------------------------------------------------
  // assertTypeCheck
  // ---------------------------------------------------------------------

  /** Entry `i` is the first one the predicate rejects. */
  predicate FirstRejected(check: (Value, string) -> bool, entries: seq<Entry>, i: int) {
    && 0 <= i < |entries|
    && !check(entries[i].value, entries[i].key)
    && forall j | 0 <= j < i :: check(entries[j].value, entries[j].key)
  }

  /** What `assertTypeCheck(check, entries, description)` returns or throws. */
  function TypeCheck(check: (Value, string) -> bool, entries: seq<Entry>, description: string): (r: Result<bool, string>)
    ensures r.Success? <==> forall i | 0 <= i < |entries| :: check(entries[i].value, entries[i].key)
    ensures r.Success? ==> r.value
    ensures r.Failure? ==> exists i :: FirstRejected(check, entries, i)
                                    && r.error == MismatchMessage(entries[i].key, entries[i].value, description)
    decreases |entries|
  {
    if entries == [] then Success(true)
    else if !check(entries[0].value, entries[0].key) then
      assert FirstRejected(check, entries, 0);
      Failure(MismatchMessage(entries[0].key, entries[0].value, description))
    else
      var rest := TypeCheck(check, entries[1..], description);
      if rest.Failure? then
        var i :| FirstRejected(check, entries[1..], i)
                 && rest.error == MismatchMessage(entries[1..][i].key, entries[1..][i].value, description);
        assert FirstRejected(check, entries, i + 1);
        rest
      else
        assert forall i | 1 <= i < |entries| :: entries[i] == entries[1..][i - 1];
        rest
  }

  /** The first rejected entry is unique, so it determines the error. */
  lemma FirstRejectedUnique(check: (Value, string) -> bool, entries: seq<Entry>, i: int, j: int)
    requires FirstRejected(check, entries, i) && FirstRejected(check, entries, j)
    ensures i == j
  {
  }

  /** `assertTypeCheck`: walks the keys in order and throws on the first value
      the predicate rejects. */
  method AssertTypeCheck(check: (Value, string) -> bool, entries: seq<Entry>, description: string)
    returns (r: Result<bool, string>)
    ensures r == TypeCheck(check, entries, description)
  {
    var i := 0;
    while i < |entries|
      invariant 0 <= i <= |entries|
      invariant forall j | 0 <= j < i :: check(entries[j].value, entries[j].key)
    {
      var entry := entries[i];
      if !check(entry.value, entry.key) {
        assert FirstRejected(check, entries, i);
        var spec := TypeCheck(check, entries, description);
        var k :| FirstRejected(check, entries, k)
                 && spec.error == MismatchMessage(entries[k].key, entries[k].value, description);
        FirstRejectedUnique(check, entries, i, k);
        return Failure(MismatchMessage(entry.key, entry.value, description));
      }
      i := i + 1;
    }
    return Success(true);
  }

  /** `assertPrimitiveType(type, entries)`. */
  function AssertPrimitiveType(t: string, entries: seq<Entry>): (r: Result<bool, string>)
    ensures r.Success? <==> forall i | 0 <= i < |entries| :: Is(t, entries[i].value)
    ensures r.Success? ==> r.value
  {
    TypeCheck((v: Value, key: string) => Is(t, v), entries, t)
  }

  /** `assertClass(classType, entries)`, with `v instanceof classType` given
      as the predicate `isInstance`. */
  function AssertClass(isInstance: Value -> bool, className: string, entries: seq<Entry>): (r: Result<bool, string>)
    ensures r.Success? <==> forall i | 0 <= i < |entries| :: isInstance(entries[i].value)
  {
    TypeCheck((v: Value, key: string) => isInstance(v), entries, className)
  }

  // ---------------------------------------------------------------------
  // Parsing type descriptions: isUnionType and isArrayType
  // ---------------------------------------------------------------------

  const Separator := " | "

  predicate SeparatorAt(s: string, i: nat) {
    i + 3 <= |s| && s[i..i + 3] == Separator
  }

  /** `s.split(" | ")`: pieces between non-overlapping occurrences of the
      separator, found left to right. */
  function Split(s: string): (parts: seq<string>)
    ensures |parts| >= 1
    ensures Join(parts) == s
    ensures forall p, i | p in parts && 0 <= i < |p| :: !SeparatorAt(p, i)
  {
    SplitFromJoin(s, "");
    assert "" + s == s;
    SplitFromPieces(s, "");
    SplitFrom(s, "")
  }

  /** Splits `s`, with `piece` the part of the current piece already read. */
  function SplitFrom(s: string, piece: string): (parts: seq<string>)
    ensures |parts| >= 1
    decreases |s|
  {
    if s == [] then [piece]
    else if SeparatorAt(s, 0) then [piece] + SplitFrom(s[3..], "")
    else SplitFrom(s[1..], piece + [s[0]])
  }

  /** `parts.join(" | ")`. */
  function Join(parts: seq<string>): string
    requires |parts| >= 1
  {
    if |parts| == 1 then parts[0] else parts[0] + Separator + Join(parts[1..])
  }

  lemma {:induction false} SplitFromJoin(s: string, piece: string)
    ensures Join(SplitFrom(s, piece)) == piece + s
    decreases |s|
  {
    if s == [] {
    } else if SeparatorAt(s, 0) {
      var rest := SplitFrom(s[3..], "");
      SplitFromJoin(s[3..], "");
      assert ([piece] + rest)[1..] == rest;
      assert s == Separator + s[3..];
    } else {
      SplitFromJoin(s[1..], piece + [s[0]]);
      assert s == [s[0]] + s[1..];
    }
  }

  /** No piece holds the separator, provided no separator starts inside the
      part already read. */
  lemma {:induction false} SplitFromPieces(s: string, piece: string)
    requires forall i | 0 <= i < |piece| :: !SeparatorAt(piece + s, i)
    ensures forall p, i | p in SplitFrom(s, piece) && 0 <= i < |p| :: !SeparatorAt(p, i)
    decreases |s|
  {
    if s == [] || SeparatorAt(s, 0) {
      forall i | 0 <= i < |piece| ensures !SeparatorAt(piece, i) {
        assert !SeparatorAt(piece + s, i);
        if i + 3 <= |piece| {
          assert (piece + s)[i..i + 3] == piece[i..i + 3];
        }
      }
      if s != [] {
        SplitFromPieces(s[3..], "");
      }
    } else {
      var next := piece + [s[0]];
      assert next + s[1..] == piece + s;
      forall i | 0 <= i < |next| ensures !SeparatorAt(next + s[1..], i) {
        if i == |piece| && i + 3 <= |piece + s| {
          assert (piece + s)[i..i + 3] == s[0..3];
        }
      }
      SplitFromPieces(s[1..], next);
    }
  }

  /** Splitting and joining again gives back the description. */
  lemma SplitJoin(s: string)
    ensures Join(Split(s)) == s
  {
    SplitFromJoin(s, "");
  }

  lemma {:induction false} SplitFromNoSeparator(s: string, piece: string)
    requires forall i | 0 <= i < |s| :: !SeparatorAt(s, i)
    ensures SplitFrom(s, piece) == [piece + s]
    decreases |s|
  {
    if s != [] {
      assert !SeparatorAt(s, 0);
      forall i | 0 <= i < |s[1..]| ensures !SeparatorAt(s[1..], i) {
        assert !SeparatorAt(s, i + 1);
        if i + 3 <= |s[1..]| {
          assert s[1..][i..i + 3] == s[i + 1..i + 4];
        }
      }
      SplitFromNoSeparator(s[1..], piece + [s[0]]);
      assert piece + [s[0]] + s[1..] == piece + s;
    } else {
      assert piece + s == piece;
    }
  }

  /** A description without " | " is a union of one alternative: itself. */
  lemma SplitNoSeparator(s: string)
    requires forall i | 0 <= i < |s| :: !SeparatorAt(s, i)
    ensures Split(s) == [s]
  {
    SplitFromNoSeparator(s, "");
    assert "" + s == s;
  }

  /** A description without spaces is a union of one alternative: itself. */
  lemma SplitNoSpace(s: string)
    requires forall i | 0 <= i < |s| :: s[i] != ' '
    ensures Split(s) == [s]
  {
    forall i | 0 <= i < |s| ensures !SeparatorAt(s, i) {
      if i + 3 <= |s| {
        assert s[i..i + 3][0] == s[i] != ' ';
      }
    }
    SplitNoSeparator(s);
  }

  /** `isUnionType`: the pieces of the split, or false (None) when there are none. */
  function IsUnionType(s: string): (r: Option<seq<string>>)
    ensures r.Some? && r.value == Split(s)
  {
    var types := Split(s);
    if |types| > 0 then Some(types) else None
  }

  predicate IsLineTerminator(c: char) {
    c == '\n' || c == '\r' || c == '\U{2028}' || c == '\U{2029}'
  }

  /** `s` matches /^Array<(.*)>$/ (`.` does not match line terminators). */
  predicate MatchesArrayPattern(s: string) {
    && |s| >= 7
    && s[..6] == "Array<"
    && s[|s| - 1] == '>'
    && forall i | 6 <= i < |s| - 1 :: !IsLineTerminator(s[i])
  }

  /** `s` matches /^([^ ]*)\[\]$/. */
  predicate MatchesBracketPattern(s: string) {
    && |s| >= 2
    && s[|s| - 2..] == "[]"
    && forall i | 0 <= i < |s| - 2 :: s[i] != ' '
  }

  /** `isArrayType`: the element type of "Array<T>" or "T[]", or false (None).
      The `Array<...>` form is tried first and its match is greedy. */
  function ArrayElementType(s: string): (r: Option<string>)
    ensures r.Some? <==> MatchesArrayPattern(s) || MatchesBracketPattern(s)
    ensures r.Some? && MatchesArrayPattern(s) ==> s == "Array<" + r.value + ">"
    ensures r.Some? && !MatchesArrayPattern(s) ==> s == r.value + "[]"
  {
    if MatchesArrayPattern(s) then
      assert s == s[..6] + s[6..|s| - 1] + [s[|s| - 1]];
      Some(s[6..|s| - 1])
    else if MatchesBracketPattern(s) then
      assert s == s[..|s| - 2] + s[|s| - 2..];
      Some(s[..|s| - 2])
    else
      None
  }

  /** "Array<T>" yields T whenever T has no line terminator. */
  lemma ArrayFormElement(t: string)
    requires forall i | 0 <= i < |t| :: !IsLineTerminator(t[i])
    ensures ArrayElementType("Array<" + t + ">") == Some(t)
  {
    var s := "Array<" + t + ">";
    assert s[..6] == "Array<";
    assert forall i | 6 <= i < |s| - 1 :: s[i] == t[i - 6];
    assert s[6..|s| - 1] == t;
  }

  /** "T[]" yields T whenever T has no space. */
  lemma BracketFormElement(t: string)
    requires forall i | 0 <= i < |t| :: t[i] != ' '
    ensures ArrayElementType(t + "[]") == Some(t)
  {
    var s := t + "[]";
    assert s[|s| - 1] == ']';
    assert s[|s| - 2..] == "[]";
    assert forall i | 0 <= i < |s| - 2 :: s[i] == t[i];
    assert s[..|s| - 2] == t;
  }

  /** A space before "[]" is not accepted. */
  lemma BracketFormRejectsSpace(t: string, k: nat)
    requires k < |t| && t[k] == ' ' && !MatchesArrayPattern(t + "[]")
    ensures ArrayElementType(t + "[]") == None
  {
    assert (t + "[]")[k] == ' ';
  }

  /** The match is greedy: the outermost "Array<...>" is stripped. */
  lemma NestedArrayElement()
    ensures ArrayElementType("Array<Array<x>>") == Some("Array<x>")
  {
    ArrayFormElement("Array<x>");
    assert "Array<" + "Array<x>" + ">" == "Array<Array<x>>";
  }

  // ---------------------------------------------------------------------
  // assertTypeUnion and assertArray
  // ---------------------------------------------------------------------

  /** `${key}[${i}]`, the key an array element is reported under. */
  function ElementKey(key: string, i: nat): (k: string)
    ensures k != ""
  {
    key + "[" + NatToString(i) + "]"
  }

  function NatToString(n: nat): (s: string)
    ensures |s| >= 1
  {
    if n < 10 then [DigitChar(n)] else NatToString(n / 10) + [DigitChar(n % 10)]
  }

  function DigitChar(d: nat): char
    requires d < 10
  {
    ['0', '1', '2', '3', '4', '5', '6', '7', '8', '9'][d]
  }

  /** The `reduce` of `assertTypeUnion`: a left fold that keeps the first
      `true` and otherwise asks the next alternative. */
  function AnyAlternative(types: seq<string>, key: string, v: Value): bool
    decreases v, 4, |types|
  {
    if types == [] then false
    else
      var acc := AnyAlternative(types[..|types| - 1], key, v);
      if acc then acc else Alternative(types[|types| - 1], key, v)
  }

  /** One step of the fold: an array alternative is checked by `assertArray`
      on `{ [key]: v }`, whose throwing counts as "no" and whose return
      value is ignored; any other alternative by `is`. */
  function Alternative(t: string, key: string, v: Value): bool
    decreases v, 3, 0
  {
    if Truthy(ArrayElementType(t)) then ArrayOne(t, key, v).Success? else Is(t, v)
  }

  /** `assertArray(arrayType, { [key]: v })`. */
  function ArrayOne(arrayType: string, key: string, v: Value): Result<bool, string>
    decreases v, 2, 0
  {
    var elementType := ArrayElementType(arrayType);
    if !Truthy(elementType) then Failure("Invalid array type " + arrayType)
    else if key == "" then Success(false)
    else ArrayEntry(elementType.value, key, v)
  }

  /** The body of `assertArray`'s loop for one non-empty key: `v` must be an
      array (checked as the object `{ value }`), and each element must pass
      `assertTypeUnion(elementType, ...)`. */
  function ArrayEntry(elementType: string, key: string, v: Value): Result<bool, string>
    decreases v, 1, 0
  {
    if !v.Arr? then Failure(MismatchMessage("value", v, "any[]"))
    else Elements(elementType, key, v, 0)
  }

  /** The element loop of `assertArray`, from index `i`. */
  function Elements(elementType: string, key: string, v: Value, i: nat): Result<bool, string>
    requires v.Arr? && i <= |v.elems|
    decreases v, 0, |v.elems| - i
  {
    if i == |v.elems| then Success(true)
    else
      var element := UnionEntry(elementType, ElementKey(key, i), v.elems[i]);
      if element.Failure? then element else Elements(elementType, key, v, i + 1)
  }

  /** `assertTypeUnion(unionType, { [key]: v })`. */
  function UnionEntry(unionType: string, key: string, v: Value): Result<bool, string>
    decreases v, 5, 0
  {
    if AnyAlternative(Split(unionType), key, v) then Success(true)
    else Failure(MismatchMessage(key, v, unionType))
  }

  function UnionCheck(types: seq<string>): (Value, string) -> bool {
    (v: Value, key: string) => AnyAlternative(types, key, v)
  }

  /** `assertTypeUnion(unionType, entries)`. */
  function AssertTypeUnion(unionType: string, entries: seq<Entry>): (r: Result<bool, string>)
    ensures r.Success? <==> forall i | 0 <= i < |entries| :: AnyAlternative(Split(unionType), entries[i].key, entries[i].value)
    ensures r.Success? ==> r.value
  {
    TypeCheck(UnionCheck(Split(unionType)), entries, unionType)
  }

  /** On a one-key object, `assertTypeUnion` is `UnionEntry`. */
  lemma UnionOfOneEntry(unionType: string, key: string, v: Value)
    ensures AssertTypeUnion(unionType, [Entry(key, v)]) == UnionEntry(unionType, key, v)
  {
    var entries := [Entry(key, v)];
    var r := AssertTypeUnion(unionType, entries);
    if r.Failure? {
      var i :| FirstRejected(UnionCheck(Split(unionType)), entries, i)
               && r.error == MismatchMessage(entries[i].key, entries[i].value, unionType);
    }
  }

  /** The fold accepts iff some alternative accepts. */
  lemma {:induction false} AnyAlternativeIffSome(types: seq<string>, key: string, v: Value)
    ensures AnyAlternative(types, key, v) <==> exists i | 0 <= i < |types| :: Alternative(types[i], key, v)
    decreases |types|
  {
    if types != [] {
      var prefix := types[..|types| - 1];
      AnyAlternativeIffSome(prefix, key, v);
      assert forall i | 0 <= i < |prefix| :: prefix[i] == types[i];
    }
  }

  /** What `assertArray(arrayType, entries)` returns or throws. */
  function ArrayCheck(arrayType: string, entries: seq<Entry>): Result<bool, string> {
    var elementType := ArrayElementType(arrayType);
    if !Truthy(elementType) then Failure("Invalid array type " + arrayType)
    else ArrayEntries(elementType.value, entries)
  }

  /** `assertArray`'s loop over the keys: an empty key ends it with `false`. */
  function ArrayEntries(elementType: string, entries: seq<Entry>): Result<bool, string>
    decreases |entries|
  {
    if entries == [] then Success(true)
    else if entries[0].key == "" then Success(false)
    else
      var first := ArrayEntry(elementType, entries[0].key, entries[0].value);
      if first.Failure? then first else ArrayEntries(elementType, entries[1..])
  }

  /** On a one-key object, `assertArray` is `ArrayOne`. */
  lemma ArrayOfOneEntry(arrayType: string, key: string, v: Value)
    ensures ArrayCheck(arrayType, [Entry(key, v)]) == ArrayOne(arrayType, key, v)
  {
    var elementType := ArrayElementType(arrayType);
    if Truthy(elementType) && key != "" {
      var first := ArrayEntry(elementType.value, key, v);
      assert [Entry(key, v)][1..] == [];
      assert ArrayEntries(elementType.value, []) == Success(true);
      if first.Success? {
        ElementsSucceedWithTrue(elementType.value, key, v, 0);
        assert first == Success(true);
        assert ArrayEntries(elementType.value, [Entry(key, v)]) == ArrayEntries(elementType.value, []);
      }
    }
  }

  lemma {:induction false} ElementsSucceedWithTrue(elementType: string, key: string, v: Value, i: nat)
    requires v.Arr? && i <= |v.elems|
    ensures Elements(elementType, key, v, i).Success? ==> Elements(elementType, key, v, i).value
    decreases |v.elems| - i
  {
    if i < |v.elems| {
      ElementsSucceedWithTrue(elementType, key, v, i + 1);
    }
  }

  /** `assertArray`, with its loop over the keys and its loop over the
      elements of each value. */
  method AssertArray(arrayType: string, entries: seq<Entry>) returns (r: Result<bool, string>)
    ensures r == ArrayCheck(arrayType, entries)
  {
    var elementType := ArrayElementType(arrayType);
    if !Truthy(elementType) {
      return Failure("Invalid array type " + arrayType);
    }
    var t := elementType.value;
    var i := 0;
    while i < |entries|
      invariant 0 <= i <= |entries|
      invariant ArrayEntries(t, entries) == ArrayEntries(t, entries[i..])
    {
      var key := entries[i].key;
      if key == "" {
        return Success(false);
      }
      var value := entries[i].value;
      var isArray := AssertTypeCheck(IsArrayValue, [Entry("value", value)], "any[]");
      if isArray.Failure? {
        ghost var k :| FirstRejected(IsArrayValue, [Entry("value", value)], k)
                       && isArray.error == MismatchMessage("value", value, "any[]");
        return Failure(isArray.error);
      }
      assert IsArrayValue(value, "value");
      var j := 0;
      while j < |value.elems|
        invariant 0 <= j <= |value.elems|
        invariant ArrayEntry(t, key, value) == Elements(t, key, value, j)
      {
        var element := AssertTypeUnion(t, [Entry(ElementKey(key, j), value.elems[j])]);
        UnionOfOneEntry(t, ElementKey(key, j), value.elems[j]);
        if element.Failure? {
          return Failure(element.error);
        }
        j := j + 1;
      }
      assert entries[i..][1..] == entries[i + 1..];
      i := i + 1;
    }
    return Success(true);
  }

  /** `Array.isArray`, as the predicate `assertArray` hands to `assertTypeCheck`. */
  predicate IsArrayValue(v: Value, key: string) {
    v.Arr?
  }

  // ---------------------------------------------------------------------
  // What a type description means, independently of assertType
  // ---------------------------------------------------------------------

  /** `v` has one of the alternatives of the union `description`. */
  predicate ConformsToUnion(description: string, v: Value)
    decreases v, 2
  {
    var types := Split(description);
    exists i | 0 <= i < |types| :: ConformsToAlternative(types[i], v)
  }

  /** `v` has the single alternative `t`: an array of the element type if
      `t` is an array type, otherwise a value `is(t)` accepts. */
  predicate ConformsToAlternative(t: string, v: Value)
    decreases v, 1
  {
    var elementType := ArrayElementType(t);
    if Truthy(elementType) then ConformsToArray(elementType.value, v) else Is(t, v)
  }

  /** `v` is an array all of whose elements conform to `elementType`. */
  predicate ConformsToArray(elementType: string, v: Value)
    decreases v, 0
  {
    v.Arr? && forall i | 0 <= i < |v.elems| :: ConformsToUnion(elementType, v.elems[i])
  }

  /** `v` has the type `description` as `assertType` reads it: an array type
      is tried first, everything else is a union. */
  predicate Describes(description: string, v: Value) {
    var elementType := ArrayElementType(description);
    if Truthy(elementType) then ConformsToArray(elementType.value, v) else ConformsToUnion(description, v)
  }

  lemma {:induction false} AnyAlternativeMeaning(types: seq<string>, key: string, v: Value)
    requires key != ""
    ensures AnyAlternative(types, key, v) <==> exists i | 0 <= i < |types| :: ConformsToAlternative(types[i], v)
    decreases v, 4, |types|
  {
    AnyAlternativeIffSome(types, key, v);
    forall i | 0 <= i < |types|
      ensures Alternative(types[i], key, v) <==> ConformsToAlternative(types[i], v)
    {
      AlternativeMeaning(types[i], key, v);
    }
  }

  lemma {:induction false} AlternativeMeaning(t: string, key: string, v: Value)
    requires key != ""
    ensures Alternative(t, key, v) <==> ConformsToAlternative(t, v)
    decreases v, 3, 0
  {
    var elementType := ArrayElementType(t);
    if Truthy(elementType) {
      ArrayEntryMeaning(elementType.value, key, v);
    }
  }

  lemma {:induction false} ArrayEntryMeaning(elementType: string, key: string, v: Value)
    requires key != ""
    ensures ArrayEntry(elementType, key, v).Success? <==> ConformsToArray(elementType, v)
    decreases v, 1, 0
  {
    if v.Arr? {
      ElementsMeaning(elementType, key, v, 0);
    }
  }

  lemma {:induction false} ElementsMeaning(elementType: string, key: string, v: Value, i: nat)
    requires key != "" && v.Arr? && i <= |v.elems|
    ensures Elements(elementType, key, v, i).Success?
            <==> forall j | i <= j < |v.elems| :: ConformsToUnion(elementType, v.elems[j])
    decreases v, 0, |v.elems| - i
  {
    if i < |v.elems| {
      UnionEntryMeaning(elementType, ElementKey(key, i), v.elems[i]);
      ElementsMeaning(elementType, key, v, i + 1);
      var all := forall j | i <= j < |v.elems| :: ConformsToUnion(elementType, v.elems[j]);
      var rest := forall j | i + 1 <= j < |v.elems| :: ConformsToUnion(elementType, v.elems[j]);
      assert all <==> ConformsToUnion(elementType, v.elems[i]) && rest;
      if Elements(elementType, key, v, i).Success? {
        assert UnionEntry(elementType, ElementKey(key, i), v.elems[i]).Success?;
        assert Elements(elementType, key, v, i + 1).Success?;
      }
    }
  }

  lemma {:induction false} UnionEntryMeaning(unionType: string, key: string, v: Value)
    requires key != ""
    ensures UnionEntry(unionType, key, v).Success? <==> ConformsToUnion(unionType, v)
    decreases v, 5, 0
  {
    AnyAlternativeMeaning(Split(unionType), key, v);
  }

  /** Under non-empty keys, `assertTypeUnion` accepts exactly the objects
      whose values all conform to the union. */
  lemma AssertTypeUnionMeaning(unionType: string, entries: seq<Entry>)
    requires forall i | 0 <= i < |entries| :: entries[i].key != ""
    ensures AssertTypeUnion(unionType, entries).Success?
            <==> forall i | 0 <= i < |entries| :: ConformsToUnion(unionType, entries[i].value)
  {
    forall i | 0 <= i < |entries|
      ensures AnyAlternative(Split(unionType), entries[i].key, entries[i].value)
              <==> ConformsToUnion(unionType, entries[i].value)
    {
      AnyAlternativeMeaning(Split(unionType), entries[i].key, entries[i].value);
    }
  }

  /** Under non-empty keys, `assertArray` with a valid array type accepts
      (with `true`) exactly the objects whose values are all arrays of the
      element type. */
  lemma {:induction false} ArrayEntriesMeaning(elementType: string, entries: seq<Entry>)
    requires forall i | 0 <= i < |entries| :: entries[i].key != ""
    ensures ArrayEntries(elementType, entries).Success?
            <==> forall i | 0 <= i < |entries| :: ConformsToArray(elementType, entries[i].value)
    ensures ArrayEntries(elementType, entries).Success? ==> ArrayEntries(elementType, entries).value
    decreases |entries|
  {
    if entries != [] {
      ArrayEntryMeaning(elementType, entries[0].key, entries[0].value);
      ArrayEntriesMeaning(elementType, entries[1..]);
      assert forall i | 1 <= i < |entries| :: entries[i] == entries[1..][i - 1];
    }
  }

  /** Before any failure, an empty key makes `assertArray` return `false`
      and skip the remaining keys. */
  lemma {:induction false} ArrayStopsAtEmptyKey(elementType: string, entries: seq<Entry>, k: nat)
    requires k < |entries| && entries[k].key == ""
    requires forall i | 0 <= i < k :: entries[i].key != "" && ConformsToArray(elementType, entries[i].value)
    ensures ArrayEntries(elementType, entries) == Success(false)
    decreases k
  {
    if k > 0 {
      ArrayEntryMeaning(elementType, entries[0].key, entries[0].value);
      ArrayStopsAtEmptyKey(elementType, entries[1..], k - 1);
    }
  }

  /** `assertArray` is called on a description that is not an array type. */
  lemma ArrayCheckRejectsNonArrayType(arrayType: string, entries: seq<Entry>)
    requires !MatchesArrayPattern(arrayType) && !MatchesBracketPattern(arrayType)
    ensures ArrayCheck(arrayType, entries) == Failure("Invalid array type " + arrayType)
  {
  }

  /** An array alternative never rejects a value stored under the empty key:
      `assertArray` returns `false` there, and the fold ignores the result. */
  lemma {:induction false} EmptyKeyPassesArrayAlternative(unionType: string, k: nat, v: Value)
    requires k < |Split(unionType)| && Truthy(ArrayElementType(Split(unionType)[k]))
    ensures AssertTypeUnion(unionType, [Entry("", v)]) == Success(true)
  {
    AnyAlternativeIffSome(Split(unionType), "", v);
    assert Alternative(Split(unionType)[k], "", v);
    UnionOfOneEntry(unionType, "", v);
  }

  /** "number[]" is a union of one array alternative, with element type "number". */
  lemma NumberArrayAlternative()
    ensures Split("number[]") == ["number[]"]
    ensures ArrayElementType("number[]") == Some("number")
  {
    SplitNoSpace("number[]");
    BracketFormElement("number");
    assert "number" + "[]" == "number[]";
  }

  /** For instance a string passes "number[]" under the key ""... */
  lemma EmptyKeyExample()
    ensures AssertTypeUnion("number[]", [Entry("", Str("abc"))]) == Success(true)
  {
    NumberArrayAlternative();
    EmptyKeyPassesArrayAlternative("number[]", 0, Str("abc"));
  }

  /** ... but not under any other key. */
  lemma NonEmptyKeyExample(key: string)
    requires key != ""
    ensures AssertTypeUnion("number[]", [Entry(key, Str("abc"))])
            == Failure(MismatchMessage(key, Str("abc"), "number[]"))
  {
    NumberArrayAlternative();
    UnionOfOneEntry("number[]", key, Str("abc"));
    UnionEntryMeaning("number[]", key, Str("abc"));
    assert !ConformsToAlternative("number[]", Str("abc"));
    assert !ConformsToUnion("number[]", Str("abc"));
  }

  // ---------------------------------------------------------------------
  // assertType and assertBuffer
  // ---------------------------------------------------------------------

  /** `assertType(type, entries)`: an array type goes to `assertArray`, any
      other description to `assertTypeUnion`. */
  method AssertType(t: string, entries: seq<Entry>) returns (r: Result<bool, string>)
    ensures r == if Truthy(ArrayElementType(t)) then ArrayCheck(t, entries) else AssertTypeUnion(t, entries)
    ensures (forall i | 0 <= i < |entries| :: entries[i].key != "") ==>
              (r.Success? <==> forall i | 0 <= i < |entries| :: Describes(t, entries[i].value))
              && (r.Success? ==> r.value)
  {
    if (forall i | 0 <= i < |entries| :: entries[i].key != "") {
      var elementType := ArrayElementType(t);
      if Truthy(elementType) {
        ArrayEntriesMeaning(elementType.value, entries);
      } else {
        AssertTypeUnionMeaning(t, entries);
      }
    }
    if Truthy(ArrayElementType(t)) {
      r := AssertArray(t, entries);
      return;
    }
    var union := IsUnionType(t);
    if union.Some? {
      return AssertTypeUnion(t, entries);
    }
    // `isUnionType` never yields false, so the source's final
    // `assertTypeCheck(is(type), ...)` is never reached.
    assert false;
  }

  /** `assertBuffer(entries)`: every value must be a Buffer; the error names
      the first value that is not. */
  method AssertBuffer(entries: seq<Entry>) returns (r: Result<bool, string>)
    ensures r.Success? <==> forall i | 0 <= i < |entries| :: entries[i].value.Buffer?
    ensures r.Success? ==> r.value
    ensures r.Failure? ==> exists i | 0 <= i < |entries| ::
              && !entries[i].value.Buffer?
              && (forall j | 0 <= j < i :: entries[j].value.Buffer?)
              && r.error == MismatchMessage(entries[i].key, entries[i].value, "Buffer")
  {
    var check := UnionCheck(Split("Buffer"));
    BufferAlternative();
    assert forall v, key :: check(v, key) <==> v.Buffer?;
    r := AssertType("Buffer", entries);
    assert r == TypeCheck(check, entries, "Buffer");
    if r.Failure? {
      var i :| FirstRejected(check, entries, i)
               && r.error == MismatchMessage(entries[i].key, entries[i].value, "Buffer");
      assert !entries[i].value.Buffer?;
    }
  }

  /** "Buffer" is not an array type, and as a union it accepts only Buffers. */
  lemma BufferAlternative()
    ensures !Truthy(ArrayElementType("Buffer"))
    ensures forall key: string, v: Value :: AnyAlternative(Split("Buffer"), key, v) <==> v.Buffer?
  {
    var t := "Buffer";
    SplitNoSpace(t);
    assert !MatchesBracketPattern(t) by { assert t[|t| - 1] == 'r'; }
    forall key: string, v: Value ensures AnyAlternative(Split(t), key, v) <==> v.Buffer? {
      AnyAlternativeIffSome(Split(t), key, v);
    }
  }
}
