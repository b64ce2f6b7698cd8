/** Shared vocabulary of the model: option and result types, the errors the
    client library reports, and the small sequence and string functions that
    the JavaScript runtime provides to the source (filter, slice, trim,
    case conversion, number rendering, URI encoding). */
module Common {

  datatype Option<T> = None | Some(value: T)

  /** What a call into the client library can fail with, in place of the
      exceptions the source throws. */
  datatype Error =
    | NotAuthenticated      // "Not authenticated": no current user, thrown before any store call
    | UniqueViolation       // store error code 23505
    | ForeignKeyViolation   // store error code 23503
    | NoRows                // `.single()` found no matching row
    | ManyRows              // `.single()` found more than one matching row
    | StoreFailure          // any other store-reported failure (network, permissions)

  datatype Result<T> = Ok(value: T) | Err(error: Error)

  /** The outcome of a call that returns nothing on success. */
  datatype Outcome = Pass | Fail(error: Error)

  /** Row identities handed out by the store. */
  type Id = nat

  /** User identities come from the identity service as strings. */
  type UserId = string

  /** The answer of `auth.getUser()`: the current user's id, or none. */
  type Auth = Option<UserId>

  function Min(a: int, b: int): int { if a <= b then a else b }

  // ---------------------------------------------------------------------------
  // Sequences

  /** `Array.prototype.filter`, and the store's `.eq`/`.neq`/`.or` row filters. */
  function Filter<T(!new)>(s: seq<T>, p: T -> bool): (r: seq<T>)
    ensures |r| <= |s|
    ensures forall x :: x in r <==> x in s && p(x)
    ensures forall i :: 0 <= i < |r| ==> p(r[i])
  {
    if s == [] then []
    else
      assert s == [s[0]] + s[1..];
      var rest := Filter(s[1..], p);
      if p(s[0]) then [s[0]] + rest else rest
  }

  lemma {:induction false} FilterAppend<T(!new)>(s: seq<T>, x: T, p: T -> bool)
    ensures Filter(s + [x], p) == Filter(s, p) + (if p(x) then [x] else [])
  {
    var t := s + [x];
    if s == [] {
      assert t == [x];
      assert t[1..] == [];
    } else {
      assert t[0] == s[0];
      assert t[1..] == s[1..] + [x];
      FilterAppend(s[1..], x, p);
      var head: seq<T> := if p(s[0]) then [s[0]] else [];
      assert Filter(t, p) == head + Filter(t[1..], p);
      assert Filter(s, p) == head + Filter(s[1..], p);
    }
  }

  lemma {:induction false} FilterKeepsAll<T(!new)>(s: seq<T>, p: T -> bool)
    requires forall i :: 0 <= i < |s| ==> p(s[i])
    ensures Filter(s, p) == s
  {
    if s != [] {
      FilterKeepsAll(s[1..], p);
    }
  }

  lemma {:induction false} FilterNone<T(!new)>(s: seq<T>, p: T -> bool)
    requires forall i :: 0 <= i < |s| ==> !p(s[i])
    ensures Filter(s, p) == []
  {
    if s != [] {
      FilterNone(s[1..], p);
    }
  }

  /** Filters with predicates that agree on every element agree. */
  lemma {:induction false} FilterSamePredicate<T(!new)>(s: seq<T>, p: T -> bool, q: T -> bool)
    requires forall x :: p(x) == q(x)
    ensures Filter(s, p) == Filter(s, q)
  {
    if s != [] {
      FilterSamePredicate(s[1..], p, q);
    }
  }

  lemma {:induction false} FilterMultiset<T(!new)>(s: seq<T>, p: T -> bool)
    ensures forall x :: multiset(Filter(s, p))[x] == if p(x) then multiset(s)[x] else 0
  {
    if s != [] {
      assert s == [s[0]] + s[1..];
      FilterMultiset(s[1..], p);
    }
  }

  /** Number of elements of `s` satisfying `p`, the store's exact row count. */
  function Count<T(!new)>(s: seq<T>, p: T -> bool): nat
  {
    |Filter(s, p)|
  }

  lemma CountCons<T(!new)>(s: seq<T>, p: T -> bool)
    requires s != []
    ensures Count(s, p) == (if p(s[0]) then 1 else 0) + Count(s[1..], p)
  {
  }

  lemma CountAppend<T(!new)>(s: seq<T>, x: T, p: T -> bool)
    ensures Count(s + [x], p) == Count(s, p) + (if p(x) then 1 else 0)
  {
    FilterAppend(s, x, p);
  }

  /** The store's `.limit(n)`: the first `n` rows, or all of them. */
  function Take<T>(s: seq<T>, n: nat): seq<T>
  {
    if n < |s| then s[..n] else s
  }

  /** `.limit(n)` keeps at most `n` of the rows and adds none. */
  lemma TakeFacts<T>(s: seq<T>, n: nat)
    ensures |Take(s, n)| == Min(n, |s|)
    ensures multiset(Take(s, n)) <= multiset(s)
  {
    if n < |s| {
      assert s == s[..n] + s[n..];
    }
  }

  /** The store's `.single()`: the row when exactly one matches, otherwise the
      error for none or for several. */
  function Single<T>(rows: seq<T>): (r: Result<T>)
    ensures r.Ok? <==> |rows| == 1
    ensures r.Ok? ==> r.value in rows
    ensures r == Err(NoRows) <==> rows == []
    ensures r == Err(ManyRows) <==> |rows| > 1
  {
    if |rows| == 1 then Ok(rows[0])
    else if rows == [] then Err(NoRows)
    else Err(ManyRows)
  }

  /** `Array.prototype.reverse`. */
  function Reverse<T>(s: seq<T>): (r: seq<T>)
    ensures |r| == |s|
    ensures forall i :: 0 <= i < |s| ==> r[i] == s[|s| - 1 - i]
  {
    if s == [] then [] else Reverse(s[1..]) + [s[0]]
  }

  lemma ReverseMultiset<T>(s: seq<T>)
    ensures multiset(Reverse(s)) == multiset(s)
  {
    if s != [] {
      assert s == [s[0]] + s[1..];
      ReverseMultiset(s[1..]);
    }
  }

  // ---------------------------------------------------------------------------
  // Characters and strings

  /** The characters `String.prototype.trim` removes: white space and line
      terminators of ECMAScript. */
  predicate IsJsSpace(c: char)
  {
    || c == ' ' || c == '\t' || c == '\n' || c == '\r'
    || c == '\U{000B}' || c == '\U{000C}' || c == '\U{00A0}' || c == '\U{1680}'
    || ('\U{2000}' <= c <= '\U{200A}')
    || c == '\U{2028}' || c == '\U{2029}' || c == '\U{202F}' || c == '\U{205F}'
    || c == '\U{3000}' || c == '\U{FEFF}'
  }

  predicate AllSpace(s: string)
  {
    forall i :: 0 <= i < |s| ==> IsJsSpace(s[i])
  }

  /** The end of the run of white space that starts at `i`. */
  function SpaceRunFrom(s: string, i: nat): (n: nat)
    requires i <= |s|
    ensures i <= n <= |s|
    ensures forall k :: i <= k < n ==> IsJsSpace(s[k])
    ensures n < |s| ==> !IsJsSpace(s[n])
    decreases |s| - i
  {
    if i == |s| || !IsJsSpace(s[i]) then i else SpaceRunFrom(s, i + 1)
  }

  /** The start of the run of white space that ends at `j`. */
  function SpaceRunTo(s: string, j: nat): (n: nat)
    requires j <= |s|
    ensures n <= j
    ensures forall k :: n <= k < j ==> IsJsSpace(s[k])
    ensures 0 < n ==> !IsJsSpace(s[n - 1])
  {
    if j == 0 || !IsJsSpace(s[j - 1]) then j else SpaceRunTo(s, j - 1)
  }

  /** `String.prototype.trim`: the infix of `s` left after dropping leading
      and trailing white space. It is empty exactly when `s` is all space. */
  function Trim(s: string): (r: string)
    ensures exists i, j :: 0 <= i <= j <= |s| && r == s[i..j] && AllSpace(s[..i]) && AllSpace(s[j..])
    ensures r == [] <==> AllSpace(s)
    ensures r != [] ==> !IsJsSpace(r[0]) && !IsJsSpace(r[|r| - 1])
  {
    var i := SpaceRunFrom(s, 0);
    if i == |s| then
      assert s[0..0] == [] && AllSpace(s[..0]) && AllSpace(s[0..]);
      []
    else
      var j := SpaceRunTo(s, |s|);
      assert i < j;
      assert !AllSpace(s) by { assert !IsJsSpace(s[i]); }
      assert AllSpace(s[..i]) && AllSpace(s[j..]);
      s[i..j]
  }


  /** ASCII case conversion, as `toUpperCase`/`toLowerCase` and the store's
      case-insensitive matching do for ASCII letters. */
  function UpperChar(c: char): char
  {
    if 'a' <= c <= 'z' then (c as int - 32) as char else c
  }

  function LowerChar(c: char): char
  {
    if 'A' <= c <= 'Z' then (c as int + 32) as char else c
  }

  function Upper(s: string): (r: string)
    ensures |r| == |s| && forall i :: 0 <= i < |s| ==> r[i] == UpperChar(s[i])
  {
    if s == [] then [] else [UpperChar(s[0])] + Upper(s[1..])
  }

  function Lower(s: string): (r: string)
    ensures |r| == |s| && forall i :: 0 <= i < |s| ==> r[i] == LowerChar(s[i])
  {
    if s == [] then [] else [LowerChar(s[0])] + Lower(s[1..])
  }

  /** `String.prototype.substring(start, end)`: both bounds clamped to the
      length, and swapped when the start is the larger. */
  function Substring(s: string, start: nat, end: nat): (r: string)
    ensures |r| <= |s| && |r| <= if start <= end then end - start else start - end
    ensures start <= end <= |s| ==> r == s[start..end]
    ensures |s| <= start <= end ==> r == []
    ensures start <= |s| < end ==> r == s[start..]
    ensures end <= start <= |s| ==> r == s[end..start]
    ensures exists i, j :: 0 <= i <= j <= |s| && r == s[i..j]
  {
    var a := Min(start, |s|);
    var b := Min(end, |s|);
    var r := if a <= b then s[a..b] else s[b..a];
    assert r == s[Min(a, b)..Min(a, b) + |r|];
    r
  }

  /** `s` ends with `suffix`. */
  predicate EndsWith(s: string, suffix: string)
  {
    |suffix| <= |s| && s[|s| - |suffix|..] == suffix
  }

  predicate IsDigit(c: char) { '0' <= c <= '9' }

  /** Decimal rendering of a natural number, as a template literal prints it. */
  function NatToString(n: nat): (r: string)
    ensures r != [] && forall i :: 0 <= i < |r| ==> IsDigit(r[i])
    ensures |r| == 1 <==> n < 10
    ensures n < 10 ==> r == [('0' as int + n) as char]
    ensures r[0] == '0' <==> n == 0
  {
    if n < 10 then [('0' as int + n) as char]
    else NatToString(n / 10) + [('0' as int + n % 10) as char]
  }

  /** The value of a string of decimal digits, the inverse of NatToString. */
  function DigitsValue(s: string): nat
    requires forall i :: 0 <= i < |s| ==> IsDigit(s[i])
  {
    if s == [] then 0
    else
      assert IsDigit(s[|s| - 1]);
      DigitsValue(s[..|s| - 1]) * 10 + (s[|s| - 1] as int - '0' as int)
  }

  lemma {:induction false} NatToStringRoundTrip(n: nat)
    ensures DigitsValue(NatToString(n)) == n
  {
    if n >= 10 {
      var s := NatToString(n);
      assert s[..|s| - 1] == NatToString(n / 10);
      NatToStringRoundTrip(n / 10);
    }
  }

  // ---------------------------------------------------------------------------
  // URI encoding

  /** The characters `encodeURIComponent` leaves as they are. */
  predicate IsUriUnreserved(c: char)
  {
    ('A' <= c <= 'Z') || ('a' <= c <= 'z') || IsDigit(c)
    || c == '-' || c == '_' || c == '.' || c == '!' || c == '~' || c == '*' || c == '\'' || c == '(' || c == ')'
  }

  predicate IsUpperHex(c: char)
  {
    IsDigit(c) || 'A' <= c <= 'F'
  }

  function HexDigit(n: nat): (c: char)
    requires n < 16
    ensures IsUpperHex(c)
  {
    if n < 10 then ('0' as int + n) as char else ('A' as int + n - 10) as char
  }

  /** The UTF-8 encoding of one character. */
  function Utf8(c: char): (r: seq<nat>)
    ensures 1 <= |r| <= 4
    ensures forall i :: 0 <= i < |r| ==> r[i] < 256
    ensures (c as int < 0x80) <==> |r| == 1
  {
    var cp := c as int;
    if cp < 0x80 then [cp]
    else if cp < 0x800 then [0xC0 + cp / 64, 0x80 + cp % 64]
    else if cp < 0x10000 then [0xE0 + cp / 4096, 0x80 + (cp / 64) % 64, 0x80 + cp % 64]
    else [0xF0 + cp / 262144, 0x80 + (cp / 4096) % 64, 0x80 + (cp / 64) % 64, 0x80 + cp % 64]
  }

  /** `%XX` for each byte, with upper-case hex digits. */
  function PercentBytes(bytes: seq<nat>): (r: string)
    requires forall i :: 0 <= i < |bytes| ==> bytes[i] < 256
    ensures |r| == 3 * |bytes|
    ensures forall i :: 0 <= i < |r| ==> r[i] == '%' || IsUpperHex(r[i])
  {
    if bytes == [] then []
    else ['%', HexDigit(bytes[0] / 16), HexDigit(bytes[0] % 16)] + PercentBytes(bytes[1..])
  }

  /** `encodeURIComponent`: unreserved characters stay, every other character
      becomes the percent-escapes of its UTF-8 bytes. The result is safe as
      one query-string value: it holds no `&`, `=`, `#` or `?`. */
  function EncodeURIComponent(s: string): (r: string)
    ensures |r| >= |s|
    ensures forall i :: 0 <= i < |r| ==> IsUriUnreserved(r[i]) || r[i] == '%' || IsUpperHex(r[i])
    ensures (forall i :: 0 <= i < |s| ==> IsUriUnreserved(s[i])) ==> r == s
  {
    if s == [] then []
    else
      var head := if IsUriUnreserved(s[0]) then [s[0]] else PercentBytes(Utf8(s[0]));
      head + EncodeURIComponent(s[1..])
  }

  /** Encoding works character by character: the encoding of a text is the
      encodings of its parts, one after the other. */
  lemma {:induction false} EncodeAppend(s: string, t: string)
    ensures EncodeURIComponent(s + t) == EncodeURIComponent(s) + EncodeURIComponent(t)
  {
    if s != [] {
      assert (s + t)[0] == s[0];
      assert (s + t)[1..] == s[1..] + t;
      EncodeAppend(s[1..], t);
    } else {
      assert s + t == t;
    }
  }

  /** One character: itself when unreserved, otherwise `%XX` per UTF-8 byte. */
  lemma EncodeChar(c: char)
    ensures IsUriUnreserved(c) ==> EncodeURIComponent([c]) == [c]
    ensures !IsUriUnreserved(c) ==> EncodeURIComponent([c]) == PercentBytes(Utf8(c))
  {
    assert [c][1..] == [];
  }

  predicate IsHex(c: char)
  {
    IsDigit(c) || 'A' <= c <= 'F' || 'a' <= c <= 'f'
  }

  function HexValue(c: char): (n: nat)
    requires IsHex(c)
    ensures n < 16
  {
    if IsDigit(c) then c as int - '0' as int
    else if 'A' <= c <= 'F' then c as int - 'A' as int + 10
    else c as int - 'a' as int + 10
  }

  /** Percent-decoding to bytes, as the receiving end of a query value does
      before reading the bytes as UTF-8: `%XX` is one byte, any other
      character stands for its own code. */
  function PercentDecode(s: string): seq<nat>
  {
    if s == [] then []
    else if |s| >= 3 && s[0] == '%' && IsHex(s[1]) && IsHex(s[2]) then
      [16 * HexValue(s[1]) + HexValue(s[2])] + PercentDecode(s[3..])
    else [s[0] as nat] + PercentDecode(s[1..])
  }

  /** The UTF-8 bytes of a text. */
  function Utf8Of(s: string): seq<nat>
  {
    if s == [] then [] else Utf8(s[0]) + Utf8Of(s[1..])
  }

  /** The two hex digits of a byte read back as the byte. */
  lemma HexPair(b: nat)
    requires b < 256
    ensures IsHex(HexDigit(b / 16)) && IsHex(HexDigit(b % 16))
    ensures 16 * HexValue(HexDigit(b / 16)) + HexValue(HexDigit(b % 16)) == b
  {
    assert HexValue(HexDigit(b / 16)) == b / 16;
    assert HexValue(HexDigit(b % 16)) == b % 16;
  }

  lemma {:induction false} PercentBytesDecode(bytes: seq<nat>, rest: string)
    requires forall i :: 0 <= i < |bytes| ==> bytes[i] < 256
    ensures PercentDecode(PercentBytes(bytes) + rest) == bytes + PercentDecode(rest)
  {
    if bytes != [] {
      var b := bytes[0];
      var tail := PercentBytes(bytes[1..]) + rest;
      var s := PercentBytes(bytes) + rest;
      assert s == ['%', HexDigit(b / 16), HexDigit(b % 16)] + tail;
      assert s[3..] == tail;
      HexPair(b);
      PercentBytesDecode(bytes[1..], rest);
      assert PercentDecode(s) == [b] + PercentDecode(tail);
      assert bytes == [b] + bytes[1..];
    } else {
      assert PercentBytes(bytes) + rest == rest;
    }
  }

  /** Decoding an encoded text gives back exactly the UTF-8 bytes of the text:
      no character is lost, added or merged with its neighbour. */
  lemma {:induction false} EncodeDecodes(s: string)
    ensures PercentDecode(EncodeURIComponent(s)) == Utf8Of(s)
  {
    if s != [] {
      var rest := EncodeURIComponent(s[1..]);
      EncodeDecodes(s[1..]);
      if IsUriUnreserved(s[0]) {
        var e := [s[0]] + rest;
        assert e[1..] == rest;
        assert Utf8(s[0]) == [s[0] as int];
      } else {
        PercentBytesDecode(Utf8(s[0]), rest);
      }
    }
  }

  /** An address ending in one query value: the prefix as given, then the
      value encoded so that it cannot end early or start another parameter,
      and so that decoding the part after the prefix gives the value's bytes. */
  function WithQueryValue(prefix: string, value: string): (r: string)
    ensures |r| >= |prefix| + |value|
    ensures r[..|prefix|] == prefix
    ensures forall i :: |prefix| <= i < |r| ==> r[i] != '&' && r[i] != '#' && r[i] != '='
    ensures (forall i :: 0 <= i < |value| ==> IsUriUnreserved(value[i])) ==> r == prefix + value
    ensures PercentDecode(r[|prefix|..]) == Utf8Of(value)
  {
    var encoded := EncodeURIComponent(value);
    EncodeDecodes(value);
    NoSeparators(value);
    AppendParts(prefix, encoded);
    prefix + encoded
  }

  /** An encoding holds none of the characters that end or split a query value. */
  lemma NoSeparators(s: string)
    ensures forall i :: 0 <= i < |EncodeURIComponent(s)| ==>
      var c := EncodeURIComponent(s)[i]; c != '&' && c != '#' && c != '='
  {
  }

  /** The two parts of a concatenation, read back by position. */
  lemma AppendParts(a: string, b: string)
    ensures (a + b)[..|a|] == a && (a + b)[|a|..] == b
    ensures forall i :: |a| <= i < |a + b| ==> (a + b)[i] == b[i - |a|]
  {
  }
}
