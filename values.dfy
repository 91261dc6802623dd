/** Python values as the playbook engine sees them once a YAML document is
    loaded, and the few built-ins the engine applies to them: `str`, `repr`,
    truth value, `int(...)`, `d[k]`, `d.get(k, default)`, `d[k] = v` and
    `d.pop(k)`. A dict is kept as an association list in its iteration order. */
module Values {

  datatype Option<+T> = None | Some(value: T)

  datatype Result<+T> = Ok(value: T) | Err(error: Error) {
    predicate IsFailure() {
      Err?
    }

    function PropagateFailure<U>(): Result<U>
      requires Err?
    {
      Err(error)
    }

    function Extract(): T
      requires Ok?
    {
      value
    }
  }

  /** The exceptions that escape the engine's operations. */
  datatype Error =
    | MissingKey(key: string)  // KeyError raised by `d[key]`
    | WrongType                // TypeError or AttributeError: the value is not of the kind the code indexes or iterates
    | NotANumber               // ValueError raised by int(...)
    | BadTemplate              // KeyError, IndexError or ValueError raised by str.format
    | BadLiteral               // the rendered text is not a Python literal (literal_eval raises)
    | ClusterFailure           // a transport error the code does not catch

  /** A Python dict: its entries in iteration order. */
  type Dict<V> = seq<(string, V)>

  datatype Value =
    | Null
    | Bool(b: bool)
    | Str(s: string)
    | Int(i: int)
    | List(items: seq<Value>)
    | Mapping(entries: seq<(string, Value)>)

  // ---------------------------------------------------------------------------
  // Dicts

  function Keys<V>(d: Dict<V>): (ks: seq<string>)
    ensures |ks| == |d| && forall i | 0 <= i < |d| :: ks[i] == d[i].0
  {
    if d == [] then [] else [d[0].0] + Keys(d[1..])
  }

  /** Python dicts never hold a key twice. */
  predicate DistinctKeys<V>(d: Dict<V>) {
    forall i, j | 0 <= i < j < |d| :: d[i].0 != d[j].0
  }

  predicate HasKey<V>(d: Dict<V>, k: string) {
    k in Keys(d)
  }

  /** `d.get(k)`: the value stored under `k`, if any. */
  function Get<V>(d: Dict<V>, k: string): (r: Option<V>)
    ensures r.None? <==> !HasKey(d, k)
    ensures r.Some? ==> (k, r.value) in d
  {
    if d == [] then None
    else if d[0].0 == k then Some(d[0].1)
    else Get(d[1..], k)
  }

  /** A dict without its first entry still has distinct keys. */
  lemma DistinctTail<V>(d: Dict<V>)
    requires d != [] && DistinctKeys(d)
    ensures DistinctKeys(d[1..]) && d[0].0 !in Keys(d[1..])
  {
    var rest := d[1..];
    forall i, j | 0 <= i < j < |rest| ensures rest[i].0 != rest[j].0 {
      assert rest[i] == d[i + 1] && rest[j] == d[j + 1];
    }
    forall i | 0 <= i < |rest| ensures Keys(rest)[i] != d[0].0 {
      assert rest[i] == d[i + 1];
    }
  }

  lemma KeysCons<V>(e: (string, V), d: Dict<V>)
    ensures Keys([e] + d) == [e.0] + Keys(d)
  {
    assert ([e] + d)[1..] == d;
  }

  /** An entry whose key is new in front of a dict with distinct keys. */
  lemma DistinctCons<V>(e: (string, V), d: Dict<V>)
    requires DistinctKeys(d) && e.0 !in Keys(d)
    ensures DistinctKeys([e] + d)
  {
    var r := [e] + d;
    forall i, j | 0 <= i < j < |r| ensures r[i].0 != r[j].0 {
      if i == 0 {
        assert r[j].0 == Keys(d)[j - 1];
      }
    }
  }

  /** `d[k] = v`: an existing key keeps its place, a new key goes last. */
  function Assign<V>(d: Dict<V>, k: string, v: V): (r: Dict<V>)
    ensures Keys(r) == if HasKey(d, k) then Keys(d) else Keys(d) + [k]
    ensures DistinctKeys(d) ==> DistinctKeys(r)
  {
    if d == [] then [(k, v)]
    else if d[0].0 == k then
      var r := [(k, v)] + d[1..];
      KeysCons((k, v), d[1..]);
      assert DistinctKeys(d) ==> DistinctKeys(r) by {
        if DistinctKeys(d) {
          DistinctTail(d);
          DistinctCons((k, v), d[1..]);
        }
      }
      r
    else
      var rest := Assign(d[1..], k, v);
      var r := [d[0]] + rest;
      KeysCons(d[0], rest);
      assert DistinctKeys(d) ==> DistinctKeys(r) by {
        if DistinctKeys(d) {
          DistinctTail(d);
          DistinctCons(d[0], rest);
        }
      }
      r
  }

  /** `d.pop(k)` for its effect on `d`: every entry under `k` goes. */
  function Remove<V>(d: Dict<V>, k: string): (r: Dict<V>)
    ensures !HasKey(r, k)
    ensures forall e | e in r :: e in d
    ensures forall e | e in d && e.0 != k :: e in r
  {
    if d == [] then []
    else if d[0].0 == k then Remove(d[1..], k)
    else [d[0]] + Remove(d[1..], k)
  }

  /** `dict(...)` as a finite map, for `**kwargs`. */
  function ToMap<V>(d: Dict<V>): (m: map<string, V>)
    ensures forall k :: k in m <==> HasKey(d, k)
  {
    if d == [] then map[]
    else
      var m := ToMap(d[1..])[d[0].0 := d[0].1];
      assert forall k :: HasKey(d, k) <==> d[0].0 == k || HasKey(d[1..], k) by {
        forall k ensures HasKey(d, k) ==> d[0].0 == k || HasKey(d[1..], k) {
          if HasKey(d, k) && d[0].0 != k {
            var i :| 0 <= i < |d| && d[i].0 == k;
            assert d[1..][i - 1].0 == k;
          }
        }
      }
      m
  }

  lemma {:induction false} GetAssign<V>(d: Dict<V>, k: string, v: V, k': string)
    ensures Get(Assign(d, k, v), k') == if k' == k then Some(v) else Get(d, k')
  {
    if d != [] && d[0].0 != k {
      GetAssign(d[1..], k, v, k');
    }
  }

  lemma {:induction false} GetRemove<V>(d: Dict<V>, k: string, k': string)
    ensures Get(Remove(d, k), k') == if k' == k then None else Get(d, k')
  {
    if d != [] {
      GetRemove(d[1..], k, k');
    }
  }

  // ---------------------------------------------------------------------------
  // Python built-ins on values

  /** Truth value testing (`if x:`). */
  predicate Truthy(v: Value) {
    match v
    case Null => false
    case Bool(b) => b
    case Str(s) => s != []
    case Int(i) => i != 0
    case List(xs) => xs != []
    case Mapping(es) => es != []
  }

  function Digit(d: nat): char
    requires d < 10
  {
    "0123456789"[d]
  }

  function Natural(n: nat): (s: string)
    ensures s != []
    decreases n
  {
    if n < 10 then [Digit(n)] else Natural(n / 10) + [Digit(n % 10)]
  }

  /** `repr` of an integer. */
  function Decimal(i: int): string {
    if i < 0 then "-" + Natural(-i) else Natural(i)
  }

  function Join(parts: seq<string>): string {
    if parts == [] then []
    else if |parts| == 1 then parts[0]
    else parts[0] + ", " + Join(parts[1..])
  }

  /** `repr(v)`: the text `str(...)` gives of a container holding `v`.
      String contents are shown between single quotes as they are. */
  function Repr(v: Value): string
    decreases v
  {
    match v
    case Null => "None"
    case Bool(b) => if b then "True" else "False"
    case Str(s) => Quote(s)
    case Int(i) => Decimal(i)
    case List(xs) =>
      "[" + Join(seq(|xs|, i requires 0 <= i < |xs| => Repr(xs[i]))) + "]"
    case Mapping(es) =>
      "{" + Join(seq(|es|, i requires 0 <= i < |es| => EntryRepr(v, es[i]))) + "}"
  }

  function EntryRepr(ghost parent: Value, e: (string, Value)): string
    requires parent.Mapping? && e in parent.entries
    decreases parent, 0
  {
    Quote(e.0) + ": " + Repr(e.1)
  }

  function Quote(s: string): string {
    "'" + s + "'"
  }

  /** `str(v)`, which is also what `"{}".format(v)` inserts. */
  function StrOf(v: Value): string {
    if v.Str? then v.s else Repr(v)
  }

  predicate IsDigit(c: char) {
    '0' <= c <= '9'
  }

  lemma {:induction false} NaturalHead(n: nat)
    ensures IsDigit(Natural(n)[0])
    decreases n
  {
    if n >= 10 {
      NaturalHead(n / 10);
    }
  }

  /** `str` of anything but a string starts with a quote, a sign, a digit,
      the `N` of `None` or a bracket: never with a lower-case letter. */
  lemma StrOfHead(v: Value)
    requires !v.Str?
    ensures StrOf(v) != [] && !('a' <= StrOf(v)[0] <= 'z')
  {
    if v.Int? && v.i >= 0 {
      NaturalHead(v.i);
    }
  }

  function DigitsValue(s: string): (n: nat)
    requires forall i | 0 <= i < |s| :: IsDigit(s[i])
    decreases |s|
  {
    if s == [] then 0
    else
      var last := s[|s| - 1];
      assert IsDigit(last);
      10 * DigitsValue(s[..|s| - 1]) + (last as int - '0' as int)
  }

  /** `int(s)` for a string: an optional sign followed by at least one digit. */
  function ParseInt(s: string): (r: Option<int>)
    ensures r.Some? ==> s != []
    ensures r.Some? ==> forall i | 0 < i < |s| :: IsDigit(s[i])
  {
    var signed := s != [] && (s[0] == '-' || s[0] == '+');
    var sign := if signed && s[0] == '-' then -1 else 1;
    var digits := if signed then s[1..] else s;
    if digits != [] && forall i | 0 <= i < |digits| :: IsDigit(digits[i])
    then
      assert forall i | 0 < i < |s| :: s[i] == digits[if signed then i - 1 else i];
      Some(sign * DigitsValue(digits))
    else None
  }

  /** `int(v)`: an integer is itself, a bool is 1 or 0, a string is parsed. */
  function IntOf(v: Value): (r: Result<int>)
    ensures v.Int? ==> r == Ok(v.i)
    ensures v.Bool? ==> r == Ok(if v.b then 1 else 0)
    ensures r.Ok? ==> v.Int? || v.Bool? || v.Str?
    ensures v.Str? && v.s == [] ==> r == Err(NotANumber)
    ensures v.Str? && (exists i | 0 < i < |v.s| :: !IsDigit(v.s[i])) ==> r == Err(NotANumber)
  {
    match v
    case Int(i) => Ok(i)
    case Bool(b) => Ok(if b then 1 else 0)
    case Str(s) => (match ParseInt(s) case Some(n) => Ok(n) case None => Err(NotANumber))
    case _ => Err(WrongType)
  }

  lemma DigitRoundTrip(d: nat)
    requires d < 10
    ensures IsDigit(Digit(d)) && Digit(d) as int - '0' as int == d
  {
    assert "0123456789"[0] == '0' && "0123456789"[1] == '1' && "0123456789"[2] == '2';
    assert "0123456789"[3] == '3' && "0123456789"[4] == '4' && "0123456789"[5] == '5';
    assert "0123456789"[6] == '6' && "0123456789"[7] == '7' && "0123456789"[8] == '8';
    assert "0123456789"[9] == '9';
  }

  /** Reading back the digits `str` writes for a natural number gives it back. */
  lemma {:induction false} NaturalRoundTrip(n: nat)
    ensures forall i | 0 <= i < |Natural(n)| :: IsDigit(Natural(n)[i])
    ensures DigitsValue(Natural(n)) == n
    decreases n
  {
    DigitRoundTrip(n % 10);
    if n >= 10 {
      NaturalRoundTrip(n / 10);
      var s := Natural(n);
      assert s == Natural(n / 10) + [Digit(n % 10)];
      assert s[..|s| - 1] == Natural(n / 10);
    } else {
      assert Natural(n) == [Digit(n)];
    }
  }

  /** `int(str(i)) == i` for every integer i. */
  lemma IntOfDecimal(i: int)
    ensures IntOf(Str(Decimal(i))) == Ok(i)
  {
    if i < 0 {
      NaturalRoundTrip(-i);
      ParseNegative(Natural(-i));
    } else {
      NaturalRoundTrip(i);
      ParseUnsigned(Natural(i));
    }
  }

  lemma ParseUnsigned(d: string)
    requires d != [] && forall i | 0 <= i < |d| :: IsDigit(d[i])
    ensures ParseInt(d) == Some(DigitsValue(d))
  {
    assert IsDigit(d[0]);
  }

  lemma ParseNegative(d: string)
    requires d != [] && forall i | 0 <= i < |d| :: IsDigit(d[i])
    ensures ParseInt("-" + d) == Some(-(DigitsValue(d) as int))
  {
    var s := "-" + d;
    assert s[0] == '-' && s[1..] == d;
  }

  /** `v[k]` with a string key. */
  function Index(v: Value, k: string): (r: Result<Value>)
    ensures r.Ok? <==> v.Mapping? && HasKey(v.entries, k)
    ensures r.Ok? ==> Get(v.entries, k) == Some(r.value)
  {
    match v
    case Mapping(es) => (match Get(es, k) case Some(x) => Ok(x) case None => Err(MissingKey(k)))
    case _ => Err(WrongType)
  }

  /** Python's `for x in v`: the items of a list, the keys of a dict, the
      characters of a string. */
  function Elements(v: Value): (r: Result<seq<Value>>)
    ensures r.Ok? <==> v.List? || v.Mapping? || v.Str?
    ensures v.List? ==> r == Ok(v.items)
    ensures v.Mapping? ==> r.Ok? && |r.value| == |v.entries|
    ensures v.Mapping? ==> forall i | 0 <= i < |v.entries| :: r.value[i] == Str(v.entries[i].0)
    ensures v.Str? ==> r.Ok? && |r.value| == |v.s|
    ensures v.Str? ==> forall i | 0 <= i < |v.s| :: r.value[i] == Str([v.s[i]])
  {
    match v
    case List(xs) => Ok(xs)
    case Mapping(es) => Ok(seq(|es|, i requires 0 <= i < |es| => Str(es[i].0)))
    case Str(s) => Ok(seq(|s|, i requires 0 <= i < |s| => Str([s[i]])))
    case _ => Err(WrongType)
  }

  /** `v.get(k, default)`. */
  function GetOr(v: Value, k: string, default: Value): (r: Result<Value>)
    ensures r.Ok? <==> v.Mapping?
    ensures v.Mapping? && !HasKey(v.entries, k) ==> r == Ok(default)
    ensures v.Mapping? && HasKey(v.entries, k) ==> Some(r.value) == Get(v.entries, k)
  {
    match v
    case Mapping(es) => (match Get(es, k) case Some(x) => Ok(x) case None => Ok(default))
    case _ => Err(WrongType)
  }
}
