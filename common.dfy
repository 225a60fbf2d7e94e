/** Small value types and sequence helpers shared by the row models and the screens. */
module Common {

  datatype Option<T> = None | Some(value: T)

  /** The exceptions the modelled code raises or lets escape. */
  datatype Error =
    | ValueError(message: string)
    | ValidationError(messages: seq<string>)
    | NotImplementedError(message: string)
    | TypeError(message: string)
    | AttributeError(message: string)
    | Exception(message: string)

  datatype Result<T> = Ok(value: T) | Err(error: Error)

  /** A cell or attribute value: the row models hold integers and strings only. */
  datatype Value = IntV(i: int) | StrV(s: string)

  function Elems<T>(s: seq<T>): set<T>
  {
    set x | x in s
  }

  predicate Distinct<T(==)>(s: seq<T>)
  {
    forall i, j :: 0 <= i < j < |s| ==> s[i] != s[j]
  }

  /** The elements of `s` that belong to `d`, in their order in `s`. */
  function Keep<T(==)>(s: seq<T>, d: set<T>): (r: seq<T>)
    ensures |r| <= |s|
    ensures forall i :: 0 <= i < |r| ==> r[i] in s && r[i] in d
    ensures forall i :: 0 <= i < |s| && s[i] in d ==> s[i] in r
  {
    if s == [] then [] else (if s[0] in d then [s[0]] else []) + Keep(s[1..], d)
  }

  /** The elements of `v` at the positions where `s` holds an element of `d`: what travels with `Keep(s, d)`. */
  function KeepParallel<T(==), U>(s: seq<T>, v: seq<U>, d: set<T>): (r: seq<U>)
    requires |s| == |v|
    ensures |r| == |Keep(s, d)|
  {
    if s == [] then [] else (if s[0] in d then [v[0]] else []) + KeepParallel(s[1..], v[1..], d)
  }

  lemma {:induction false} KeepParallelConcat<T, U>(a: seq<T>, va: seq<U>, b: seq<T>, vb: seq<U>, d: set<T>)
    requires |a| == |va| && |b| == |vb|
    ensures KeepParallel(a + b, va + vb, d) == KeepParallel(a, va, d) + KeepParallel(b, vb, d)
  {
    if a == [] {
      assert a + b == b && va + vb == vb;
    } else {
      assert (a + b)[0] == a[0] && (va + vb)[0] == va[0];
      assert (a + b)[1..] == a[1..] + b && (va + vb)[1..] == va[1..] + vb;
      KeepParallelConcat(a[1..], va[1..], b, vb, d);
      assert KeepParallel(a + b, va + vb, d)
        == (if a[0] in d then [va[0]] else []) + (KeepParallel(a[1..], va[1..], d) + KeepParallel(b, vb, d));
    }
  }

  /** One more position of `s` and `v` adds `v[i]` exactly when `s[i]` is kept. */
  lemma KeepParallelSnoc<T, U>(s: seq<T>, v: seq<U>, d: set<T>, i: nat)
    requires |s| == |v| && i < |s|
    ensures KeepParallel(s[..i + 1], v[..i + 1], d)
      == KeepParallel(s[..i], v[..i], d) + (if s[i] in d then [v[i]] else [])
  {
    assert s[..i + 1] == s[..i] + [s[i]] && v[..i + 1] == v[..i] + [v[i]];
    KeepParallelConcat(s[..i], v[..i], [s[i]], [v[i]], d);
    assert KeepParallel([s[i]], [v[i]], d) == (if s[i] in d then [v[i]] else []) by {
      assert [s[i]][1..] == [] && [v[i]][1..] == [];
    }
  }

  /** `s` with every occurrence of `x` dropped. */
  function Without<T(==)>(s: seq<T>, x: T): (r: seq<T>)
    ensures x !in r
    ensures forall i :: 0 <= i < |r| ==> r[i] != x && r[i] in s
    ensures forall i :: 0 <= i < |s| && s[i] != x ==> s[i] in r
  {
    if s == [] then [] else (if s[0] == x then [] else [s[0]]) + Without(s[1..], x)
  }

  lemma {:induction false} KeepConcat<T>(a: seq<T>, b: seq<T>, d: set<T>)
    ensures Keep(a + b, d) == Keep(a, d) + Keep(b, d)
  {
    if a == [] {
      assert a + b == b;
    } else {
      assert (a + b)[0] == a[0];
      assert (a + b)[1..] == a[1..] + b;
      KeepConcat(a[1..], b, d);
      assert Keep(a + b, d) == (if a[0] in d then [a[0]] else []) + (Keep(a[1..], d) + Keep(b, d));
    }
  }

  lemma {:induction false} KeepAll<T>(s: seq<T>, d: set<T>)
    requires Elems(s) <= d
    ensures Keep(s, d) == s
  {
    if s != [] {
      assert s[0] in Elems(s);
      assert Elems(s[1..]) <= Elems(s);
      KeepAll(s[1..], d);
    }
  }

  lemma KeepElems<T>(s: seq<T>, d: set<T>)
    ensures Elems(Keep(s, d)) == Elems(s) * d
  {
    var r := Keep(s, d);
    forall y | y in Elems(s) * d
      ensures y in Elems(r)
    {
      var i :| 0 <= i < |s| && s[i] == y;
    }
  }

  lemma {:induction false} KeepDistinct<T>(s: seq<T>, d: set<T>)
    requires Distinct(s)
    ensures Distinct(Keep(s, d))
  {
    if s != [] {
      KeepDistinct(s[1..], d);
      assert s[0] !in s[1..];
    }
  }

  lemma {:induction false} WithoutAbsent<T>(s: seq<T>, x: T)
    requires x !in s
    ensures Without(s, x) == s
  {
    if s != [] {
      WithoutAbsent(s[1..], x);
    }
  }

  lemma {:induction false} WithoutConcat<T>(a: seq<T>, b: seq<T>, x: T)
    ensures Without(a + b, x) == Without(a, x) + Without(b, x)
  {
    if a == [] {
      assert a + b == b;
    } else {
      assert (a + b)[0] == a[0];
      assert (a + b)[1..] == a[1..] + b;
      WithoutConcat(a[1..], b, x);
    }
  }

  /** Dropping the one occurrence of `x` from `a + [x] + b`. */
  lemma WithoutSplit<T>(a: seq<T>, x: T, b: seq<T>)
    requires x !in a && x !in b
    ensures Without(a + [x] + b, x) == a + b
  {
    var ax := a + [x];
    WithoutConcat(ax, b, x);
    WithoutConcat(a, [x], x);
    WithoutAbsent(a, x);
    WithoutAbsent(b, x);
    assert Without([x], x) == [] by {
      assert [x][1..] == [];
    }
    assert Without(ax, x) == a;
  }

  /** On a sequence without duplicates, keeping all but `x` is dropping `x`. */
  lemma {:induction false} KeepAllBut<T>(s: seq<T>, d: set<T>, x: T)
    requires Elems(s) - {x} <= d && x !in d
    ensures Keep(s, d) == Without(s, x)
  {
    if s != [] {
      assert Elems(s[1..]) <= Elems(s);
      KeepAllBut(s[1..], d, x);
    }
  }

  lemma ElemsAt<T>(s: seq<T>, i: nat)
    ensures i < |s| ==> s[i] in Elems(s)
  {
  }

  lemma DistinctSingleton<T>(s: seq<T>, x: T)
    requires Distinct(s) && Elems(s) == {x}
    ensures s == [x]
  {
    assert s[0] in Elems(s);
    if |s| > 1 {
      ElemsAt(s, 1);
      assert false;
    }
  }

  function DigitChar(d: nat): char
    requires d < 10
  {
    "0123456789"[d]
  }

  function DigitValue(c: char): Option<nat>
  {
    if '0' <= c <= '9' then Some((c - '0') as nat) else None
  }

  /** Decimal digits of `n`, without leading zeros (as Python's `str` writes an int). */
  function NatString(n: nat): (r: string)
    ensures |r| >= 1
    ensures forall i :: 0 <= i < |r| ==> DigitValue(r[i]).Some?
  {
    if n < 10 then [DigitChar(n)] else NatString(n / 10) + [DigitChar(n % 10)]
  }

  function IntString(n: int): string
  {
    if n < 0 then "-" + NatString(-n) else NatString(n)
  }

  /** A non-empty string of decimal digits read as a number, otherwise None. */
  function ParseNat(s: string): Option<nat>
  {
    if s == [] then None
    else
      var d := DigitValue(s[|s| - 1]);
      if d.None? then None
      else if |s| == 1 then Some(d.value)
      else
        var front := ParseNat(s[..|s| - 1]);
        if front.None? then None else Some(front.value * 10 + d.value)
  }

  /** Decimal integer syntax: an optional minus sign followed by digits. */
  function ParseInt(s: string): Option<int>
  {
    if |s| > 0 && s[0] == '-' then
      (var n := ParseNat(s[1..]); if n.None? then None else Some(-(n.value as int)))
    else
      (var n := ParseNat(s); if n.None? then None else Some(n.value as int))
  }

  lemma {:induction false} ParseNatString(n: nat)
    ensures ParseNat(NatString(n)) == Some(n)
  {
    if n >= 10 {
      var s := NatString(n);
      assert s[..|s| - 1] == NatString(n / 10);
      ParseNatString(n / 10);
    }
  }

  /** Reading back the decimal text of an integer gives the integer. */
  lemma ParseIntString(n: int)
    ensures ParseInt(IntString(n)) == Some(n)
  {
    var s := IntString(n);
    if n < 0 {
      assert s[0] == '-' && s[1..] == NatString(-n);
      ParseNatString(-n);
    } else {
      assert s == NatString(n);
      assert DigitValue(s[0]).Some?;
      ParseNatString(n);
    }
  }

  /** Python's `sep.join(parts)`. */
  function Join(parts: seq<string>, sep: string): string
  {
    if parts == [] then "" else if |parts| == 1 then parts[0] else parts[0] + sep + Join(parts[1..], sep)
  }
}
