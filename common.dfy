/**
 * Shared vocabulary of the ShrekChat model: optional values, the HTTP error
 * replies the routers raise, the result wrapper, and small helpers on sets of
 * row ids and on strings that several modules use.
 */
module Common {

  datatype Option<T> = None | Some(value: T)
  {
    predicate IsSome() { Some? }
  }

  /** The HTTP errors the routers raise, each with the detail text it carries. */
  datatype HttpError =
    | BadRequest(detail: string)
    | Unauthorized(detail: string)
    | Forbidden(detail: string)
    | NotFound(detail: string)
    | InternalError(detail: string)
    | ServiceUnavailable(detail: string)
  {
    /** The HTTP status code of the reply. */
    function Code(): nat
    {
      match this
      case BadRequest(_) => 400
      case Unauthorized(_) => 401
      case Forbidden(_) => 403
      case NotFound(_) => 404
      case InternalError(_) => 500
      case ServiceUnavailable(_) => 503
    }
  }

  datatype Result<T> = Ok(value: T) | Err(error: HttpError)
  {
    predicate IsFailure() { Err? }
  }

  /** Python truthiness of an optional string: present and not empty. */
  predicate Truthy(s: Option<string>)
  {
    s.Some? && s.value != ""
  }

  /** Python truthiness of an optional row id: present and not zero. */
  predicate TruthyId(n: Option<nat>)
  {
    n.Some? && n.value != 0
  }

  // ---------------------------------------------------------------------
  // Sets of row ids, enumerated in ascending order

  lemma MinWitness(s: set<nat>) returns (m: nat)
    requires s != {}
    ensures m in s && forall x :: x in s ==> m <= x
    decreases |s|
  {
    var y :| y in s;
    if s == {y} {
      m := y;
    } else {
      var r := s - {y};
      var k := MinWitness(r);
      m := if y < k then y else k;
      forall x | x in s ensures m <= x {
        if x != y { assert x in r; }
      }
    }
  }

  lemma MinExists(s: set<nat>)
    requires s != {}
    ensures exists m :: m in s && forall x :: x in s ==> m <= x
  {
    var m := MinWitness(s);
  }

  /** The smallest element of a non-empty set of ids. */
  function Min(s: set<nat>): (m: nat)
    requires s != {}
    ensures m in s && forall x :: x in s ==> m <= x
  {
    MinExists(s);
    var m :| m in s && forall x :: x in s ==> m <= x; m
  }

  /** The largest element of a non-empty set of ids. */
  function Max(s: set<nat>): (m: nat)
    requires s != {}
    ensures m in s && forall x :: x in s ==> x <= m
    decreases |s|
  {
    var lo := Min(s);
    if s == {lo} then lo
    else
      var rest := Max(s - {lo});
      assert forall x :: x in s ==> x == lo || x in s - {lo};
      rest
  }

  predicate StrictlyIncreasing(q: seq<nat>)
  {
    forall i, j :: 0 <= i < j < |q| ==> q[i] < q[j]
  }

  /** The ids of a sequence, as a set. */
  function IdSet(ids: seq<nat>): (s: set<nat>)
    ensures forall u :: u in s <==> u in ids
  {
    set u | u in ids
  }

  /**
   * The elements of a set of ids in ascending order: the order in which the
   * store hands back rows of an unordered query (primary-key order).
   */
  function Ascending(s: set<nat>): (q: seq<nat>)
    ensures |q| == |s|
    ensures forall x :: x in q <==> x in s
    ensures StrictlyIncreasing(q)
    decreases |s|
  {
    if s == {} then []
    else
      var m := Min(s);
      var rest := Ascending(s - {m});
      var q := [m] + rest;
      assert forall i :: 0 <= i < |rest| ==> m < rest[i] by {
        forall i | 0 <= i < |rest| ensures m < rest[i] {
          assert rest[i] in s - {m};
        }
      }
      assert forall x :: x in q <==> x == m || x in rest;
      assert StrictlyIncreasing(q) by {
        forall i, j | 0 <= i < j < |q| ensures q[i] < q[j] {
          assert q[j] == rest[j - 1];
          if i > 0 {
            assert q[i] == rest[i - 1];
          }
        }
      }
      q
  }

  /** The row id the store assigns to the next inserted row: one past the largest in use. */
  function NextId(used: set<nat>): (k: nat)
    ensures k !in used
    ensures forall j :: j in used ==> j < k
    ensures k >= 1
  {
    if used == {} then 1 else Max(used) + 1
  }

  /** Regrouping an append; the loops that extend an outbox use it at each step. */
  lemma AppendAssociative<E>(a: seq<E>, b: seq<E>, c: seq<E>)
    ensures (a + b) + c == a + (b + c)
  {
  }

  // ---------------------------------------------------------------------
  // Strings

  /** The ASCII whitespace characters that `str.strip()` and `String.trim()` remove. */
  predicate IsSpace(c: char)
  {
    c == ' ' || c == '\t' || c == '\n' || c == '\r' || c == '\U{B}' || c == '\U{C}'
  }

  predicate AllSpace(s: string)
  {
    forall k :: 0 <= k < |s| ==> IsSpace(s[k])
  }

  /** `s` without its leading whitespace. */
  function TrimStart(s: string): (r: string)
    ensures |r| <= |s| && r == s[|s| - |r|..]
    ensures AllSpace(s[..|s| - |r|])
    ensures r == [] || !IsSpace(r[0])
  {
    if s != [] && IsSpace(s[0]) then TrimStart(s[1..]) else s
  }

  /** `s` without its trailing whitespace. */
  function TrimEnd(s: string): (r: string)
    ensures |r| <= |s| && r == s[..|r|]
    ensures AllSpace(s[|r|..])
    ensures r == [] || !IsSpace(r[|r| - 1])
  {
    if s != [] && IsSpace(s[|s| - 1]) then TrimEnd(s[..|s| - 1]) else s
  }

  /** `str.strip()` / `String.prototype.trim()` on ASCII whitespace. */
  function Trim(s: string): (r: string)
    ensures r == [] || (!IsSpace(r[0]) && !IsSpace(r[|r| - 1]))
    ensures r == [] <==> AllSpace(s)
  {
    var a := TrimStart(s);
    var r := TrimEnd(a);
    if r == [] then
      assert AllSpace(s) by {
        assert a[|r|..] == a;
        assert a == [];
        assert s[..|s| - |a|] == s;
      }
      r
    else
      assert !AllSpace(s) by {
        var j := |s| - |a|;
        assert a == s[j..];
        assert a[0] == r[0] && s[j] == a[0];
      }
      r
  }

  /** Trimming twice is trimming once. */
  lemma TrimIdempotent(s: string)
    ensures Trim(Trim(s)) == Trim(s)
  {
    var r := Trim(s);
    if r != [] {
      assert TrimStart(r) == r;
      assert TrimEnd(r) == r;
    }
  }

  // ---------------------------------------------------------------------
  // Two-digit decimal rendering

  function DigitChar(d: nat): (c: char)
    requires d < 10
    ensures '0' <= c <= '9' && c as int - '0' as int == d
  {
    ('0' as int + d) as char
  }

  function DigitValue(c: char): nat
    requires '0' <= c <= '9'
  {
    (c as int - '0' as int) as nat
  }

  /** A number below 100 as two zero-padded digits (`%02d`, `%H`, `%M`, `%d`, `%m`). */
  function Pad2(n: nat): (s: string)
    requires n < 100
    ensures |s| == 2 && '0' <= s[0] <= '9' && '0' <= s[1] <= '9'
    ensures DigitValue(s[0]) * 10 + DigitValue(s[1]) == n
  {
    [DigitChar(n / 10), DigitChar(n % 10)]
  }

  /** A number below 10000 as four zero-padded digits (`%Y`). */
  function Pad4(n: nat): (s: string)
    requires n < 10000
    ensures |s| == 4 && forall k :: 0 <= k < 4 ==> '0' <= s[k] <= '9'
    ensures DigitValue(s[0]) * 1000 + DigitValue(s[1]) * 100 + DigitValue(s[2]) * 10 + DigitValue(s[3]) == n
  {
    var hi := Pad2(n / 100);
    var lo := Pad2(n % 100);
    var s := hi + lo;
    assert s[0] == hi[0] && s[1] == hi[1] && s[2] == lo[0] && s[3] == lo[1];
    s
  }

  // ---------------------------------------------------------------------
  // Decimal integers (`int(s)` and `str(n)`)

  predicate IsDigits(s: string)
  {
    forall k :: 0 <= k < |s| ==> '0' <= s[k] <= '9'
  }

  /** The value of a string of decimal digits. */
  function DigitsValue(s: string): nat
    requires IsDigits(s)
  {
    if s == [] then 0 else DigitsValue(s[..|s| - 1]) * 10 + DigitValue(s[|s| - 1])
  }

  /** A natural number in decimal, without leading zeros. */
  function Decimal(n: nat): (s: string)
    ensures s != [] && IsDigits(s)
  {
    if n < 10 then [DigitChar(n)] else Decimal(n / 10) + [DigitChar(n % 10)]
  }

  /**
   * The digits of a Python integer literal as `int()` reads them: ASCII
   * digits, where a single underscore may stand between two digits.
   */
  predicate IsNumeral(s: string)
  {
    s != [] && '0' <= s[0] <= '9' && '0' <= s[|s| - 1] <= '9' &&
    (forall k :: 0 <= k < |s| ==> '0' <= s[k] <= '9' || s[k] == '_') &&
    (forall j, k :: 0 <= j < |s| && 0 <= k < |s| && k == j + 1 ==> s[j] != '_' || s[k] != '_')
  }

  /** The digits of a numeral with its underscores removed. */
  function DropUnderscores(s: string): (r: string)
    ensures (forall k :: 0 <= k < |s| ==> '0' <= s[k] <= '9' || s[k] == '_') ==> IsDigits(r)
    ensures IsDigits(s) ==> r == s
  {
    if s == [] then [] else (if s[0] == '_' then [] else [s[0]]) + DropUnderscores(s[1..])
  }

  /**
   * `int(s)` on a string without surrounding whitespace: an optional sign and
   * a numeral; anything else is a ValueError (`None`).
   */
  function ParseInt(s: string): (r: Option<int>)
    ensures r.Some? ==> s != []
  {
    if |s| > 1 && (s[0] == '+' || s[0] == '-') && IsNumeral(s[1..]) then
      var v := DigitsValue(DropUnderscores(s[1..]));
      Some(if s[0] == '-' then -(v as int) else v)
    else if IsNumeral(s) then Some(DigitsValue(DropUnderscores(s)))
    else None
  }

  lemma {:induction false} DropUnderscoresAppend(a: string, b: string)
    ensures DropUnderscores(a + b) == DropUnderscores(a) + DropUnderscores(b)
  {
    if a == [] {
      assert a + b == b;
    } else {
      assert (a + b)[0] == a[0];
      assert (a + b)[1..] == a[1..] + b;
      DropUnderscoresAppend(a[1..], b);
    }
  }

  lemma DigitsAreNumeral(s: string)
    requires s != [] && IsDigits(s)
    ensures IsNumeral(s) && DropUnderscores(s) == s
  {
  }

  lemma JoinedIsNumeral(a: string, b: string)
    requires a != [] && b != [] && IsDigits(a) && IsDigits(b)
    ensures IsNumeral(a + "_" + b)
  {
    var s := a + "_" + b;
    assert s[0] == a[0] && s[|s| - 1] == b[|b| - 1];
    forall k | 0 <= k < |s| ensures '0' <= s[k] <= '9' || s[k] == '_' {
      if k < |a| { assert s[k] == a[k]; } else if k > |a| { assert s[k] == b[k - |a| - 1]; }
    }
    forall k | 0 <= k < |s| - 1 ensures s[k] != '_' || s[k + 1] != '_' {
      if k < |a| { assert s[k] == a[k]; } else { assert s[k + 1] == b[k - |a|]; }
    }
  }

  lemma DropJoiningUnderscore(a: string, b: string)
    requires IsDigits(a) && IsDigits(b)
    ensures DropUnderscores(a + "_" + b) == a + b
  {
    var u := "_";
    assert u[0] == '_' && u[1..] == [];
    assert DropUnderscores(u) == [];
    DropUnderscoresAppend(a, u);
    assert DropUnderscores(a + u) == a;
    DropUnderscoresAppend(a + u, b);
  }

  /** An underscore between two runs of digits is skipped: "1_2" reads as 12. */
  lemma UnderscoreBetweenDigits(a: string, b: string)
    requires a != [] && b != [] && IsDigits(a) && IsDigits(b)
    ensures ParseInt(a + "_" + b) == ParseInt(a + b) == Some(DigitsValue(a + b))
  {
    var s := a + "_" + b;
    var c := a + b;
    JoinedIsNumeral(a, b);
    DropJoiningUnderscore(a, b);
    assert s[0] == a[0] && c[0] == a[0];
    assert s[0] != '+' && s[0] != '-' && c[0] != '+' && c[0] != '-';
    assert ParseInt(s) == Some(DigitsValue(a + b));
    assert IsDigits(c) by {
      forall k | 0 <= k < |c| ensures '0' <= c[k] <= '9' {
        if k < |a| { assert c[k] == a[k]; } else { assert c[k] == b[k - |a|]; }
      }
    }
    DigitsAreNumeral(c);
  }

  lemma {:induction false} DecimalValue(n: nat)
    ensures DigitsValue(Decimal(n)) == n
  {
    if n >= 10 {
      DecimalValue(n / 10);
      var s := Decimal(n);
      assert s[..|s| - 1] == Decimal(n / 10);
    }
  }

  /** Reading back a rendered number gives the number. */
  lemma ParseDecimal(n: nat)
    ensures ParseInt(Decimal(n)) == Some(n)
  {
    DecimalValue(n);
  }

  // ---------------------------------------------------------------------
  // Splitting and joining on a separator (`s.split(sep)`, `sep.join(parts)`)

  /** The position of the first `c` in `s`. */
  function FindChar(s: string, c: char): (i: nat)
    requires c in s
    ensures i < |s| && s[i] == c && c !in s[..i]
  {
    if s[0] == c then 0
    else
      var j := FindChar(s[1..], c);
      assert s[..j + 1] == [s[0]] + s[1..][..j];
      j + 1
  }

  /** The pieces of `s` between occurrences of `sep`; there is always at least one. */
  function Split(s: string, sep: char): (parts: seq<string>)
    ensures |parts| >= 1
    ensures forall i :: 0 <= i < |parts| ==> sep !in parts[i]
    decreases |s|
  {
    if sep !in s then [s]
    else
      var i := FindChar(s, sep);
      [s[..i]] + Split(s[i + 1..], sep)
  }

  function Join(parts: seq<string>, sep: char): string
  {
    if parts == [] then ""
    else if |parts| == 1 then parts[0]
    else parts[0] + [sep] + Join(parts[1..], sep)
  }

  lemma FindCharAfter(a: string, sep: char, b: string)
    requires sep !in a
    ensures FindChar(a + [sep] + b, sep) == |a|
  {
    var s := a + [sep] + b;
    assert s[|a|] == sep;
  }

  /** Joining pieces that do not contain the separator and splitting again gives the pieces. */
  lemma {:induction false} SplitJoin(parts: seq<string>, sep: char)
    requires |parts| >= 1
    requires forall i :: 0 <= i < |parts| ==> sep !in parts[i]
    ensures Split(Join(parts, sep), sep) == parts
  {
    if |parts| > 1 {
      var tail := parts[1..];
      var rest := Join(tail, sep);
      var s := parts[0] + [sep] + rest;
      assert Join(parts, sep) == s;
      FindCharAfter(parts[0], sep, rest);
      assert s[|parts[0]|] == sep;
      assert s[..|parts[0]|] == parts[0];
      assert s[|parts[0]| + 1..] == rest;
      assert Split(s, sep) == [parts[0]] + Split(rest, sep);
      assert forall i :: 0 <= i < |tail| ==> sep !in tail[i] by {
        forall i | 0 <= i < |tail| ensures sep !in tail[i] {
          assert tail[i] == parts[i + 1];
        }
      }
      SplitJoin(tail, sep);
      assert parts == [parts[0]] + tail;
    }
  }

  /** Splitting and joining again gives the string back. */
  lemma {:induction false} JoinSplit(s: string, sep: char)
    ensures Join(Split(s, sep), sep) == s
    decreases |s|
  {
    if sep in s {
      var i := FindChar(s, sep);
      JoinSplit(s[i + 1..], sep);
      var parts := Split(s, sep);
      assert parts[1..] == Split(s[i + 1..], sep);
      assert s == s[..i] + [sep] + s[i + 1..];
    }
  }
}
