/** The JavaScript values that flow through the fetch layer and the resolver
    (parsed JSON bodies and the properties read from them), with the handful of
    JavaScript operations the core applies to them. */
module JsValue {

  /** A JavaScript value as it appears in a parsed JSON body, plus `undefined`,
      which is what reading a missing property yields. Numbers are integers. */
  datatype Value =
    | Undefined
    | Null
    | Bool(b: bool)
    | Num(n: int)
    | Str(s: string)
    | Arr(items: seq<Value>)
    | Obj(fields: map<string, Value>)

  predicate Nullish(v: Value) {
    v.Undefined? || v.Null?
  }

  /** JavaScript truthiness: what `if (v)` and `v || d` test. */
  predicate Truthy(v: Value) {
    match v
    case Undefined => false
    case Null => false
    case Bool(b) => b
    case Num(n) => n != 0
    case Str(s) => s != ""
    case Arr(_) => true
    case Obj(_) => true
  }

  /** `v?.key` for the record keys the core reads: an own property of an
      object, and `undefined` for everything else. */
  function Prop(v: Value, key: string): (r: Value)
    ensures !v.Obj? ==> r == Undefined
    ensures v.Obj? && key !in v.fields ==> r == Undefined
  {
    match v
    case Obj(m) => if key in m then m[key] else Undefined
    case _ => Undefined
  }

  /** `v || null`. */
  function OrNull(v: Value): (r: Value)
    ensures Truthy(v) ==> r == v
    ensures !Truthy(v) ==> r == Null
  {
    if Truthy(v) then v else Null
  }

  /** `v?.length`: defined for arrays and strings, an ordinary property of an
      object, `undefined` otherwise. */
  function LengthOf(v: Value): (r: Value)
    ensures v.Arr? ==> r == Num(|v.items|)
    ensures v.Str? ==> r == Num(|v.s|)
    ensures Nullish(v) ==> r == Undefined
  {
    match v
    case Arr(items) => Num(|items|)
    case Str(s) => Num(|s|)
    case Obj(_) => Prop(v, "length")
    case _ => Undefined
  }

  /** `v[0]`: the first element of an array, the first character of a string. */
  function Elem0(v: Value): (r: Value)
    ensures v.Arr? && |v.items| > 0 ==> r == v.items[0]
    ensures v.Str? && |v.s| > 0 ==> r == Str([v.s[0]])
  {
    match v
    case Arr(items) => if |items| > 0 then items[0] else Undefined
    case Str(s) => if |s| > 0 then Str([s[0]]) else Undefined
    case Obj(_) => Prop(v, "0")
    case _ => Undefined
  }

  // ---------------------------------------------------------------------------
  // Decimal rendering of array indices and row ids (`String(n)`).

  function DigitChar(d: nat): (c: char)
    requires d < 10
    ensures '0' <= c <= '9'
  {
    "0123456789"[d]
  }

  function DigitValue(c: char): nat {
    if '0' <= c <= '9' then (c as int - '0' as int) else 0
  }

  /** `String(n)` for a natural number: its decimal digits, most significant first. */
  function NatToString(n: nat): (s: string)
    ensures |s| > 0
    ensures forall i | 0 <= i < |s| :: '0' <= s[i] <= '9'
  {
    if n < 10 then [DigitChar(n)] else NatToString(n / 10) + [DigitChar(n % 10)]
  }

  /** The number a string of decimal digits denotes. */
  function DecimalValue(s: string): nat {
    if |s| == 0 then 0 else DecimalValue(s[..|s| - 1]) * 10 + DigitValue(s[|s| - 1])
  }

  lemma DigitCharValue(d: nat)
    requires d < 10
    ensures DigitValue(DigitChar(d)) == d
  {
  }

  /** `String(n)` reads back as `n`: the rendering loses nothing. */
  lemma {:induction false} NatToStringRoundTrip(n: nat)
    ensures DecimalValue(NatToString(n)) == n
  {
    if n < 10 {
      DigitCharValue(n);
      assert NatToString(n)[..0] == [];
    } else {
      var s := NatToString(n);
      assert s[..|s| - 1] == NatToString(n / 10);
      NatToStringRoundTrip(n / 10);
      DigitCharValue(n % 10);
    }
  }

  // ---------------------------------------------------------------------------
  // Object spread.

  /** The own enumerable properties of an array or string: index keys "0", "1", ... */
  function IndexKeyed(vs: seq<Value>): map<string, Value>
  {
    if |vs| == 0 then map[] else IndexKeyed(vs[..|vs| - 1])[NatToString(|vs| - 1) := vs[|vs| - 1]]
  }

  function Chars(s: string): seq<Value>
  {
    seq(|s|, i requires 0 <= i < |s| => Str([s[i]]))
  }

  /** `{ ...v }`: a new plain object holding the own enumerable properties of `v`.
      Spreading an object copies its fields; spreading an array or a string gives
      an object keyed by index; spreading anything else gives `{}`. */
  function ShallowCopy(v: Value): (r: Value)
    ensures r.Obj?
  {
    match v
    case Obj(m) => Obj(m)
    case Arr(items) => Obj(IndexKeyed(items))
    case Str(s) => Obj(IndexKeyed(Chars(s)))
    case _ => Obj(map[])
  }

  /** A shallow copy is structurally equal to the original exactly when the
      original is a plain object. */
  lemma ShallowCopyEqualIffObject(v: Value)
    ensures ShallowCopy(v) == v <==> v.Obj?
  {
  }

  lemma ShallowCopyIdempotent(v: Value)
    ensures ShallowCopy(ShallowCopy(v)) == ShallowCopy(v)
  {
  }

  // ---------------------------------------------------------------------------
  // `String.prototype.split` with a one-character separator, and `at(-2)`.

  /** `s.split(sep)`: the maximal separator-free pieces of `s`, in order,
      including the empty pieces before, between and after separators. */
  function Split(s: string, sep: char): (parts: seq<string>)
    ensures |parts| >= 1
    ensures forall i | 0 <= i < |parts| :: sep !in parts[i]
  {
    if |s| == 0 then [""]
    else
      var rest := Split(s[1..], sep);
      if s[0] == sep then [""] + rest
      else [[s[0]] + rest[0]] + rest[1..]
  }

  /** `parts.join(sep)`. */
  function Join(parts: seq<string>, sep: char): string
    requires |parts| >= 1
  {
    if |parts| == 1 then parts[0] else parts[0] + [sep] + Join(parts[1..], sep)
  }

  /** Splitting and joining again gives back the string. */
  lemma {:induction false} JoinSplit(s: string, sep: char)
    ensures Join(Split(s, sep), sep) == s
  {
    if |s| > 0 {
      var rest := Split(s[1..], sep);
      JoinSplit(s[1..], sep);
      if s[0] == sep {
        assert ([""] + rest)[1..] == rest;
      } else {
        if |rest| == 1 {
          assert Split(s, sep) == [[s[0]] + rest[0]];
        } else {
          assert Split(s, sep)[1..] == rest[1..];
        }
      }
    }
  }

  /** A separator splits a string into the pieces of its two sides. */
  lemma {:induction false} SplitAround(a: string, sep: char, b: string)
    ensures Split(a + [sep] + b, sep) == Split(a, sep) + Split(b, sep)
  {
    var s := a + [sep] + b;
    if |a| == 0 {
      assert s[1..] == b;
    } else {
      assert s[1..] == a[1..] + [sep] + b;
      SplitAround(a[1..], sep, b);
    }
  }

  lemma {:induction false} SplitWithoutSeparator(s: string, sep: char)
    requires sep !in s
    ensures Split(s, sep) == [s]
  {
    if |s| > 0 {
      assert sep !in s[1..] by {
        forall i | 0 <= i < |s[1..]| ensures s[1..][i] != sep {
          assert s[1..][i] == s[i + 1];
        }
      }
      SplitWithoutSeparator(s[1..], sep);
      assert s[0] != sep;
      assert [s[0]] + s[1..] == s;
    }
  }

  /** Joining separator-free pieces and splitting again gives back the pieces. */
  lemma {:induction false} SplitJoin(parts: seq<string>, sep: char)
    requires |parts| >= 1
    requires forall i | 0 <= i < |parts| :: sep !in parts[i]
    ensures Split(Join(parts, sep), sep) == parts
  {
    if |parts| == 1 {
      SplitWithoutSeparator(parts[0], sep);
    } else {
      SplitJoin(parts[1..], sep);
      SplitAround(parts[0], sep, Join(parts[1..], sep));
      SplitWithoutSeparator(parts[0], sep);
    }
  }

  /** `xs.at(-2)`: the second-to-last element, `undefined` when there is none. */
  function SecondToLast(xs: seq<string>): (r: Value)
    ensures |xs| >= 2 <==> r.Str?
    ensures |xs| >= 2 ==> r == Str(xs[|xs| - 2])
  {
    if |xs| >= 2 then Str(xs[|xs| - 2]) else Undefined
  }

  /** In a URL ending `.../<segment>/` the second-to-last '/'-piece is the segment. */
  lemma SecondToLastOfTrailingSlash(prefix: string, segment: string)
    requires '/' !in segment
    ensures SecondToLast(Split(prefix + "/" + segment + "/", '/')) == Str(segment)
  {
    assert prefix + "/" + segment + "/" == prefix + ['/'] + (segment + ['/'] + "");
    SplitAround(prefix, '/', segment + ['/'] + "");
    SplitAround(segment, '/', "");
    SplitWithoutSeparator(segment, '/');
    assert Split("", '/') == [""];
  }
}
