/** Spring's HttpHeaders as the filter uses it: an insertion-ordered map from
    a header name to its list of values, the mutating operations the filter
    calls on it (putAll, remove, set, setContentLength) and the reading of
    Content-Length (getContentLength, which parses the first value with
    Long.parseLong). */
module Headers {

  datatype Option<T> = None | Some(value: T)

  datatype Result<T, E> = Success(value: T) | Failure(error: E)

  /** The exception Long.parseLong throws for a value it cannot read. */
  datatype NumberFormatException = NumberFormatException(input: string)

  /** One header: its name and the list of its values. */
  type Entry = (string, seq<string>)

  const CONTENT_LENGTH: string := "Content-Length"
  const TRANSFER_ENCODING: string := "Transfer-Encoding"

  /** No name occurs twice: the entries form a map. */
  predicate DistinctNames(e: seq<Entry>) {
    forall i, j :: 0 <= i < j < |e| ==> e[i].0 != e[j].0
  }

  /** An ordered multi-valued map, in iteration order. */
  type HeaderMap = e: seq<Entry> | DistinctNames(e)

  /** The position of the first entry named `name`, or -1 when there is none. */
  function IndexOf(e: seq<Entry>, name: string): (i: int)
    ensures -1 <= i < |e|
    ensures i >= 0 ==> e[i].0 == name
    ensures forall j :: 0 <= j < |e| && (i < 0 || j < i) ==> e[j].0 != name
  {
    if e == [] then -1
    else if e[0].0 == name then 0
    else
      var t := IndexOf(e[1..], name);
      if t < 0 then -1 else t + 1
  }

  /** The map's `get`: the value list stored under `name`, if any. */
  function Lookup(e: seq<Entry>, name: string): Option<seq<string>> {
    var i := IndexOf(e, name);
    if i < 0 then None else Some(e[i].1)
  }

  /** Every entry of a map is what a lookup of its name finds. */
  lemma LookupAt(e: HeaderMap, i: nat)
    requires i < |e|
    ensures Lookup(e, e[i].0) == Some(e[i].1)
  {
    var k := IndexOf(e, e[i].0);
    assert k >= 0;
    assert !(k < i) && !(i < k);
  }

  /** A lookup finds a value exactly when some entry carries the name. */
  lemma LookupNone(e: seq<Entry>, name: string)
    ensures Lookup(e, name).None? <==> forall j :: 0 <= j < |e| ==> e[j].0 != name
  {
  }

  /** Two maps whose entries agree position by position up to a name-preserving
      change agree on every lookup: the lookup only depends on where names
      occur and on the value at that place. */
  lemma LookupSameNames(e: seq<Entry>, f: seq<Entry>, name: string)
    requires |e| == |f|
    requires forall j :: 0 <= j < |e| ==> e[j].0 == f[j].0
    requires forall j :: 0 <= j < |e| && e[j].0 == name ==> e[j].1 == f[j].1
    ensures Lookup(e, name) == Lookup(f, name)
  {
    var i, k := IndexOf(e, name), IndexOf(f, name);
    if i >= 0 { assert f[i].0 == name; }
    if k >= 0 { assert e[k].0 == name; }
    assert i == k;
  }

  /** The map's `put`: a new name is appended, an existing one keeps its
      place and gets the new value list. */
  function Upsert(e: HeaderMap, name: string, values: seq<string>): (r: HeaderMap)
    ensures Lookup(r, name) == Some(values)
    ensures forall n :: n != name ==> Lookup(r, n) == Lookup(e, n)
    ensures Lookup(e, name).Some? ==> |r| == |e| && forall j :: 0 <= j < |e| ==> r[j].0 == e[j].0
    ensures Lookup(e, name).None? ==> r == e + [(name, values)]
  {
    var i := IndexOf(e, name);
    if i < 0 then
      var r := e + [(name, values)];
      assert DistinctNames(r);
      LookupAt(r, |e|);
      forall n | n != name ensures Lookup(r, n) == Lookup(e, n) {
        var a, b := IndexOf(r, n), IndexOf(e, n);
        if b >= 0 { assert r[b].0 == n; }
        assert a != |e|;
        assert a == b;
      }
      r
    else
      var r := e[i := (name, values)];
      assert DistinctNames(r);
      LookupAt(r, i);
      forall n | n != name ensures Lookup(r, n) == Lookup(e, n) {
        LookupSameNames(r, e, n);
      }
      r
  }

  /** Subsequence: `r` keeps some of the entries of `e`, in their order. */
  predicate Subsequence(r: seq<Entry>, e: seq<Entry>)
    decreases |e|
  {
    if r == [] then true
    else if e == [] then false
    else if r[0] == e[0] then Subsequence(r[1..], e[1..])
    else Subsequence(r, e[1..])
  }

  lemma {:induction false} SubsequenceRefl(e: seq<Entry>)
    ensures Subsequence(e, e)
    decreases |e|
  {
    if e != [] { SubsequenceRefl(e[1..]); }
  }

  /** Dropping one position keeps the other entries in order. */
  lemma {:induction false} SubsequenceDrop(e: seq<Entry>, i: nat)
    requires i < |e|
    ensures Subsequence(e[..i] + e[i + 1..], e)
    decreases i
  {
    if i == 0 {
      assert e[..0] + e[1..] == e[1..];
      SubsequenceRefl(e[1..]);
      SubsequenceShift(e[1..], e);
    } else {
      SubsequenceDrop(e[1..], i - 1);
      assert e[1..][..i - 1] + e[1..][i..] == (e[..i] + e[i + 1..])[1..];
      assert (e[..i] + e[i + 1..])[0] == e[0];
    }
  }

  /** A subsequence of the tail is a subsequence of the whole. */
  lemma {:induction false} SubsequenceShift(r: seq<Entry>, e: seq<Entry>)
    requires e != [] && Subsequence(r, e[1..])
    ensures Subsequence(r, e)
    decreases |e|, 0
  {
    if r != [] && r[0] == e[0] {
      SubsequenceTail(r, e[1..]);
    }
  }

  /** Dropping the first kept entry keeps a subsequence. */
  lemma {:induction false} SubsequenceTail(r: seq<Entry>, e: seq<Entry>)
    requires r != [] && Subsequence(r, e)
    ensures Subsequence(r[1..], e)
    decreases |e|, 1
  {
    if r[0] == e[0] {
      SubsequenceShift(r[1..], e);
    } else {
      SubsequenceTail(r, e[1..]);
      SubsequenceShift(r[1..], e);
    }
  }

  /** The map's `remove`: exactly the entry named `name` goes, the others
      stay in their order with their value lists. */
  function Without(e: HeaderMap, name: string): (r: HeaderMap)
    ensures Lookup(r, name) == None
    ensures forall n :: n != name ==> Lookup(r, n) == Lookup(e, n)
    ensures |r| == if Lookup(e, name).Some? then |e| - 1 else |e|
    ensures Lookup(e, name).None? ==> r == e
    ensures Subsequence(r, e)
  {
    var i := IndexOf(e, name);
    if i < 0 then
      SubsequenceRefl(e);
      e
    else
      var r := e[..i] + e[i + 1..];
      assert DistinctNames(r) by {
        forall a, b | 0 <= a < b < |r| ensures r[a].0 != r[b].0 {
          var a', b' := if a < i then a else a + 1, if b < i then b else b + 1;
          assert r[a] == e[a'] && r[b] == e[b'];
        }
      }
      assert forall j :: 0 <= j < |r| ==> r[j].0 != name by {
        forall j | 0 <= j < |r| ensures r[j].0 != name {
          if j < i { assert r[j] == e[j]; } else { assert r[j] == e[j + 1]; }
        }
      }
      LookupNone(r, name);
      forall n | n != name ensures Lookup(r, n) == Lookup(e, n) {
        var a, b := IndexOf(r, n), IndexOf(e, n);
        if a >= 0 {
          if a < i { assert r[a] == e[a]; LookupAt(e, a); }
          else { assert r[a] == e[a + 1]; LookupAt(e, a + 1); }
          LookupAt(r, a);
        } else {
          // no entry of r is named n, hence none of e is
          forall j | 0 <= j < |e| ensures e[j].0 != n {
            if j < i { assert e[j] == r[j]; } else if j > i { assert e[j] == r[j - 1]; }
          }
        }
      }
      SubsequenceDrop(e, i);
      r
  }

  /** The map's `putAll`: every entry of `src`, in its iteration order, is
      put into `e`. */
  function PutAllEntries(e: HeaderMap, src: HeaderMap): HeaderMap
    decreases |src|
  {
    if src == [] then e
    else
      var last := |src| - 1;
      Upsert(PutAllEntries(e, src[..last]), src[last].0, src[last].1)
  }

  /** Putting entries whose names are all new appends them in order. */
  lemma {:induction false} PutAllFresh(e: HeaderMap, src: HeaderMap)
    requires forall i, j :: 0 <= i < |e| && 0 <= j < |src| ==> e[i].0 != src[j].0
    ensures PutAllEntries(e, src) == e + src
    decreases |src|
  {
    if src != [] {
      var last := |src| - 1;
      PutAllFresh(e, src[..last]);
      var p := e + src[..last];
      assert DistinctNames(p);
      assert forall j :: 0 <= j < |p| ==> p[j].0 != src[last].0;
      LookupNone(p, src[last].0);
      assert p + [src[last]] == e + src;
    }
  }

  /** `new HttpHeaders()` followed by `putAll(src)` is a copy of `src`. */
  lemma CopyIsIdentity(src: HeaderMap)
    ensures PutAllEntries([], src) == src
  {
    PutAllFresh([], src);
  }

  // ---------------------------------------------------------------------
  // Long.toString and Long.parseLong, as far as Content-Length needs them

  const LONG_MIN: int := -0x8000_0000_0000_0000
  const LONG_MAX: int := 0x7FFF_FFFF_FFFF_FFFF

  predicate IsDigit(c: char) { '0' <= c <= '9' }

  predicate AllDigits(s: string) {
    forall i :: 0 <= i < |s| ==> IsDigit(s[i])
  }

  /** The number that a string of decimal digits denotes. */
  function DecimalValue(s: string): nat
    requires AllDigits(s)
  {
    if s == [] then 0
    else DecimalValue(s[..|s| - 1]) * 10 + (s[|s| - 1] as int - '0' as int)
  }

  /** The shortest decimal numeral of `n`. */
  function Decimal(n: nat): (s: string)
    ensures |s| >= 1 && AllDigits(s)
    ensures DecimalValue(s) == n
    ensures s[0] == '0' ==> n == 0
    ensures |s| > 1 ==> s[0] != '0'
  {
    var d := ('0' as int + n % 10) as char;
    if n < 10 then [d]
    else
      var p := Decimal(n / 10);
      assert (p + [d])[..|p|] == p;
      p + [d]
  }

  /** Long.toString: an optional minus sign and the decimal numeral. */
  function LongToString(n: int): (s: string)
    ensures |s| >= 1
  {
    if n < 0 then "-" + Decimal(-n) else Decimal(n)
  }

  /** The shape Long.parseLong accepts: an optional `+` or `-` followed by
      one or more ASCII digits. */
  predicate Numeral(s: string) {
    |s| >= 1 &&
    var digits := if s[0] == '-' || s[0] == '+' then s[1..] else s;
    digits != [] && AllDigits(digits)
  }

  /** The number a numeral denotes: its digits' value, negated after `-`. */
  function NumeralValue(s: string): int
    requires Numeral(s)
  {
    if s[0] == '-' then -(DecimalValue(s[1..]) as int)
    else if s[0] == '+' then DecimalValue(s[1..])
    else DecimalValue(s)
  }

  /** Long.parseLong: a numeral whose value is inside the 64-bit range
      gives that value; anything else is a NumberFormatException. */
  function ParseLong(s: string): (r: Result<int, NumberFormatException>)
    ensures r.Success? <==> Numeral(s) && LONG_MIN <= NumeralValue(s) <= LONG_MAX
    ensures r.Success? ==> r.value == NumeralValue(s)
    ensures r.Failure? ==> r.error == NumberFormatException(s)
  {
    if s == [] then Failure(NumberFormatException(s))
    else
      var signed := s[0] == '-' || s[0] == '+';
      var digits := if signed then s[1..] else s;
      if digits == [] || !AllDigits(digits) then Failure(NumberFormatException(s))
      else
        var v: int := if s[0] == '-' then -(DecimalValue(digits) as int) else DecimalValue(digits);
        if LONG_MIN <= v <= LONG_MAX then Success(v) else Failure(NumberFormatException(s))
  }

  /** Strings that are not numerals are refused: the empty string, a lone
      sign, a trailing letter, an inner space, a doubled sign. */
  lemma MalformedNumeralsFail()
    ensures ParseLong("").Failure? && ParseLong("+").Failure? && ParseLong("-").Failure?
    ensures ParseLong("12a").Failure? && ParseLong("1 2").Failure? && ParseLong("--1").Failure?
    ensures ParseLong("+7") == Success(7)
  {
    assert !IsDigit('a') && !IsDigit(' ') && !IsDigit('-');
    assert "12a"[2] == 'a' && "1 2"[1] == ' ' && "--1"[1..][0] == '-';
    assert DecimalValue("7") == 7;
  }

  /** Reading back what Long.toString wrote gives the number again. */
  lemma ParseFormatRoundTrip(n: int)
    requires LONG_MIN <= n <= LONG_MAX
    ensures ParseLong(LongToString(n)) == Success(n)
  {
    if n < 0 {
      assert ("-" + Decimal(-n))[1..] == Decimal(-n);
    }
  }

  /** The numeral of a number outside the 64-bit range is refused. */
  lemma OutOfRangeFails(n: int)
    requires n < LONG_MIN || n > LONG_MAX
    ensures ParseLong(LongToString(n)).Failure?
  {
    if n < 0 {
      assert ("-" + Decimal(-n))[1..] == Decimal(-n);
    }
  }

  /** getContentLength: -1 when there is no Content-Length value, otherwise
      the first value parsed by Long.parseLong (which may throw). */
  function ContentLength(e: HeaderMap): (r: Result<int, NumberFormatException>)
    ensures Lookup(e, CONTENT_LENGTH).None? || Lookup(e, CONTENT_LENGTH).value == [] ==> r == Success(-1)
    ensures (Lookup(e, CONTENT_LENGTH).Some? && Lookup(e, CONTENT_LENGTH).value != [])
            ==> r == ParseLong(Lookup(e, CONTENT_LENGTH).value[0])
    ensures r.Success? ==> LONG_MIN <= r.value <= LONG_MAX
  {
    match Lookup(e, CONTENT_LENGTH)
    case None => Success(-1)
    case Some(values) => if values == [] then Success(-1) else ParseLong(values[0])
  }

  /** After setContentLength(n), getContentLength reads n back. */
  lemma SetContentLengthReadsBack(e: HeaderMap, n: int)
    requires LONG_MIN <= n <= LONG_MAX
    ensures ContentLength(Upsert(e, CONTENT_LENGTH, [LongToString(n)])) == Success(n)
  {
    ParseFormatRoundTrip(n);
  }

  /** A mutable header set, as the filter builds it with `new HttpHeaders()`. */
  class HttpHeaders {
    var entries: HeaderMap

    constructor ()
      ensures entries == []
    {
      entries := [];
    }

    /** put(name, values) */
    method Put(name: string, values: seq<string>)
      modifies this
      ensures entries == Upsert(old(entries), name, values)
    {
      entries := Upsert(entries, name, values);
    }

    /** set(name, value): the single value replaces any list under the name. */
    method Set(name: string, value: string)
      modifies this
      ensures entries == Upsert(old(entries), name, [value])
    {
      Put(name, [value]);
    }

    /** remove(name) */
    method Remove(name: string)
      modifies this
      ensures entries == Without(old(entries), name)
    {
      entries := Without(entries, name);
    }

    /** putAll(src): the entries of `src` are put one by one, in order. */
    method PutAll(src: HeaderMap)
      modifies this
      ensures entries == PutAllEntries(old(entries), src)
    {
      var i := 0;
      while i < |src|
        invariant 0 <= i <= |src|
        invariant entries == PutAllEntries(old(entries), src[..i])
      {
        assert src[..i + 1][..i] == src[..i];
        Put(src[i].0, src[i].1);
        i := i + 1;
      }
      assert src[..i] == src;
    }

    /** setContentLength(n): Content-Length set to the single decimal value. */
    method SetContentLength(n: int)
      modifies this
      ensures entries == Upsert(old(entries), CONTENT_LENGTH, [LongToString(n)])
    {
      Set(CONTENT_LENGTH, LongToString(n));
    }

    /** getContentLength() */
    function GetContentLength(): (r: Result<int, NumberFormatException>)
      reads this
      ensures r == ContentLength(entries)
    {
      ContentLength(entries)
    }
  }
}
