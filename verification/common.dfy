/** Shared vocabulary of the model: nullable values, outcomes of calls that may
    throw, the exception carriers, Java's notion of a blank string, the decimal
    rendering of a long, and the iteration of an unordered collection. */
module Common {

  /** A Java reference that may be null. */
  datatype Option<+T> = None | Some(value: T)

  /** The outcome of a call that either returns normally or throws. */
  datatype Result<+R, +E> = Success(value: R) | Failure(error: E)

  // The HTTP status codes the application uses (org.springframework.http.HttpStatus).
  const OK: int := 200
  const CREATED: int := 201
  const BAD_REQUEST: int := 400
  const NOT_FOUND: int := 404
  const CONFLICT: int := 409

  /** Which exception class was thrown. */
  datatype ExceptionKind =
    | ProductValidation   // ProductValidationException
    | UserValidation      // UserValidationException
    | RoleValidation      // RoleValidationException
    | Runtime             // a plain RuntimeException
    | BadCredentials      // thrown by the authentication manager
    | AccessDenied        // thrown by the method-security interceptor
    | InvalidSignature    // thrown by the token parser

  /** An exception in flight: its class, its message and the HTTP status it
      carries (None when the exception carries none). */
  datatype Raised = Raised(kind: ExceptionKind, message: string, status: Option<int>)

  /** Character.isWhitespace: the space separators other than the no-break
      spaces, the line and paragraph separators, and the controls U+0009..U+000D
      and U+001C..U+001F. */
  predicate IsWhitespace(c: char)
  {
    || c == ' '
    || ('\t' <= c <= '\r')
    || ('\U{1C}' <= c <= '\U{1F}')
    || c == '\U{1680}'
    || ('\U{2000}' <= c <= '\U{2006}')
    || ('\U{2008}' <= c <= '\U{200A}')
    || c == '\U{2028}' || c == '\U{2029}'
    || c == '\U{205F}' || c == '\U{3000}'
  }

  /** String.isBlank: empty or whitespace only. */
  predicate IsBlank(s: string)
  {
    forall i :: 0 <= i < |s| ==> IsWhitespace(s[i])
  }

  /** `s != null && !s.isBlank()`, the guard every validator uses. */
  predicate Present(s: Option<string>)
  {
    s.Some? && !IsBlank(s.value)
  }

  /** A string whose first character is visible is not blank. */
  lemma VisibleHeadNotBlank(s: string)
    requires |s| > 0 && !IsWhitespace(s[0])
    ensures !IsBlank(s)
  {
  }

  function DigitChar(d: nat): (c: char)
    requires d < 10
    ensures '0' <= c <= '9'
  {
    ['0', '1', '2', '3', '4', '5', '6', '7', '8', '9'][d]
  }

  /** The decimal digits of n, most significant first, with no leading zero. */
  function DecimalDigits(n: nat): (s: string)
    ensures |s| >= 1
    ensures forall i :: 0 <= i < |s| ==> '0' <= s[i] <= '9'
    ensures n >= 10 ==> s[0] != '0'
    decreases n
  {
    if n < 10 then [DigitChar(n)] else DecimalDigits(n / 10) + [DigitChar(n % 10)]
  }

  /** Long.toString, as used when a code is concatenated into a message. */
  function LongToString(n: int): (s: string)
    ensures |s| >= 1 && !IsWhitespace(s[0])
    ensures n >= 0 ==> forall i :: 0 <= i < |s| ==> '0' <= s[i] <= '9'
    ensures n < 0 ==> s[0] == '-'
  {
    if n < 0 then "-" + DecimalDigits(-n) else DecimalDigits(n)
  }

  /** xs lists every element of s exactly once, in some order. */
  ghost predicate IsEnumeration<T(!new)>(xs: seq<T>, s: set<T>)
  {
    && |xs| == |s|
    && (forall i, j :: 0 <= i < j < |xs| ==> xs[i] != xs[j])
    && (forall x :: x in xs <==> x in s)
  }

  /** Iterating a Java Set (or a repository's findAll): every element once, in
      an order the caller cannot rely on. */
  method Enumerate<T(==,!new)>(s: set<T>) returns (xs: seq<T>)
    ensures IsEnumeration(xs, s)
  {
    xs := [];
    var rest := s;
    while rest != {}
      invariant rest <= s
      invariant |xs| + |rest| == |s|
      invariant forall i, j :: 0 <= i < j < |xs| ==> xs[i] != xs[j]
      invariant forall x :: x in xs <==> x in s && x !in rest
      decreases rest
    {
      var x :| x in rest;
      xs := xs + [x];
      rest := rest - {x};
    }
  }

  /** String.compareTo(a, b) < 0: the first differing character decides, and
      a proper prefix comes before the longer string. */
  predicate StringLess(a: string, b: string)
    decreases |a|
  {
    if |a| == 0 then |b| > 0
    else if |b| == 0 then false
    else if a[0] != b[0] then a[0] < b[0]
    else StringLess(a[1..], b[1..])
  }

  lemma {:induction false} StringLessAsymmetric(a: string, b: string)
    requires StringLess(a, b)
    ensures !StringLess(b, a) && a != b
    decreases |a|
  {
    if |a| > 0 && a[0] == b[0] {
      StringLessAsymmetric(a[1..], b[1..]);
    }
  }

  lemma {:induction false} StringLessTransitive(a: string, b: string, c: string)
    requires StringLess(a, b) && StringLess(b, c)
    ensures StringLess(a, c)
    decreases |a|
  {
    if |a| > 0 && a[0] == b[0] && b[0] == c[0] {
      StringLessTransitive(a[1..], b[1..], c[1..]);
    }
  }

  /** Any two different strings are ordered one way or the other. */
  lemma {:induction false} StringLessTotal(a: string, b: string)
    requires a != b
    ensures StringLess(a, b) || StringLess(b, a)
    decreases |a|
  {
    if |a| > 0 && |b| > 0 && a[0] == b[0] {
      assert a == [a[0]] + a[1..] && b == [b[0]] + b[1..];
      StringLessTotal(a[1..], b[1..]);
    }
  }

  /** Each element comes before every later one. */
  predicate StrictlyAscending(xs: seq<string>)
  {
    forall i, j :: 0 <= i < j < |xs| ==> StringLess(xs[i], xs[j])
  }

  /** A set of strings has exactly one ascending enumeration. */
  lemma {:induction false} AscendingEnumerationUnique(xs: seq<string>, ys: seq<string>, s: set<string>)
    requires IsEnumeration(xs, s) && StrictlyAscending(xs)
    requires IsEnumeration(ys, s) && StrictlyAscending(ys)
    ensures xs == ys
    decreases |xs|
  {
    if |xs| > 0 {
      assert xs[0] in s && ys[0] in s;
      if xs[0] != ys[0] {
        var j :| 0 <= j < |ys| && ys[j] == xs[0];
        var i :| 0 <= i < |xs| && xs[i] == ys[0];
        assert StringLess(ys[0], xs[0]);
        StringLessAsymmetric(ys[0], xs[0]);
        assert false;
      }
      var rest := s - {xs[0]};
      assert IsEnumeration(xs[1..], rest) by {
        forall x ensures x in xs[1..] <==> x in rest {
          if x in xs[1..] {
            var k :| 1 <= k < |xs| && xs[k] == x;
          }
          if x in rest {
            assert x in xs;
          }
        }
      }
      assert IsEnumeration(ys[1..], rest) by {
        forall x ensures x in ys[1..] <==> x in rest {
          if x in ys[1..] {
            var k :| 1 <= k < |ys| && ys[k] == x;
          }
          if x in rest {
            assert x in ys;
          }
        }
      }
      AscendingEnumerationUnique(xs[1..], ys[1..], rest);
      assert xs == [xs[0]] + xs[1..] && ys == [ys[0]] + ys[1..];
    }
  }

  /** The least element of a non-empty set of strings. */
  method Least(s: set<string>) returns (m: string)
    requires s != {}
    ensures m in s
    ensures forall y :: y in s && y != m ==> StringLess(m, y)
  {
    m :| m in s;
    var rest := s - {m};
    while rest != {}
      invariant rest <= s && m in s && m !in rest
      invariant forall y :: y in s && y !in rest && y != m ==> StringLess(m, y)
      decreases rest
    {
      var y :| y in rest;
      if StringLess(y, m) {
        forall z | z in s && z !in rest - {y} && z != y
          ensures StringLess(y, z)
        {
          if z != m {
            StringLessTransitive(y, m, z);
          }
        }
        m := y;
      } else {
        StringLessTotal(m, y);
      }
      rest := rest - {y};
    }
  }

  /** Iterating a sorted set of strings (a TreeSet ordered by
      String.compareTo): every element once, in ascending order. */
  method EnumerateAscending(s: set<string>) returns (xs: seq<string>)
    ensures IsEnumeration(xs, s) && StrictlyAscending(xs)
  {
    xs := [];
    var rest := s;
    while rest != {}
      invariant rest <= s
      invariant |xs| + |rest| == |s|
      invariant forall x :: x in xs <==> x in s && x !in rest
      invariant StrictlyAscending(xs)
      invariant forall i, y :: 0 <= i < |xs| && y in rest ==> StringLess(xs[i], y)
      decreases rest
    {
      var m := Least(rest);
      xs := xs + [m];
      rest := rest - {m};
    }
    forall i, j | 0 <= i < j < |xs|
      ensures xs[i] != xs[j]
    {
      StringLessAsymmetric(xs[i], xs[j]);
    }
  }
}
