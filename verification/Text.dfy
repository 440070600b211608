/** Python string operations the modelled code relies on: `str.strip`, `split(":")`, `":".join` and `sorted`. */
module Text {

  datatype Option<+T> = None | Some(value: T)

  /** The code points `str.strip()` removes. */
  predicate IsSpace(c: char) {
    var n := c as int;
    || 0x09 <= n <= 0x0D || 0x1C <= n <= 0x20
    || n == 0x85 || n == 0xA0 || n == 0x1680
    || 0x2000 <= n <= 0x200A
    || n == 0x2028 || n == 0x2029 || n == 0x202F || n == 0x205F || n == 0x3000
  }

  predicate Stripped(s: string) {
    s == "" || (!IsSpace(s[0]) && !IsSpace(s[|s| - 1]))
  }

  predicate Blank(s: string) {
    forall i | 0 <= i < |s| :: IsSpace(s[i])
  }

  /** `s.strip()` is the only stripped string left after taking blanks off both ends (or "" when all is blank). */
  function Strip(s: string): (r: string)
    ensures Stripped(r)
    ensures r == "" <==> Blank(s)
    ensures Stripped(s) ==> r == s
    ensures |r| <= |s|
    decreases |s|
  {
    if s == "" then s
    else if IsSpace(s[0]) then Strip(s[1..])
    else if IsSpace(s[|s| - 1]) then
      assert !IsSpace(s[..|s| - 1][0]);
      Strip(s[..|s| - 1])
    else s
  }

  /** `s.lower()`, for ASCII letters. */
  function Lower(s: string): (r: string)
    ensures |r| == |s|
  {
    if s == "" then ""
    else [if 'A' <= s[0] <= 'Z' then (s[0] as int + 32) as char else s[0]] + Lower(s[1..])
  }

  lemma {:induction false} LowerAt(s: string, i: nat)
    requires i < |s|
    ensures Lower(s)[i] == if 'A' <= s[i] <= 'Z' then s[i] - 'A' + 'a' else s[i]
  {
    if i > 0 { LowerAt(s[1..], i - 1); }
  }

  lemma {:induction false} LowerFixed(s: string)
    requires forall i | 0 <= i < |s| :: !('A' <= s[i] <= 'Z')
    ensures Lower(s) == s
  {
    if s != "" {
      LowerFixed(s[1..]);
      assert s == [s[0]] + s[1..];
    }
  }

  /** s is m between blanks. */
  predicate Between(s: string, a: string, m: string, b: string) {
    s == a + m + b && Blank(a) && Blank(b)
  }

  lemma BlankBefore(c: char, s: string, a: string, m: string, b: string)
    requires IsSpace(c) && Between(s, a, m, b)
    ensures Between([c] + s, [c] + a, m, b)
  {
    assert [c] + (a + m + b) == [c] + a + m + b;
  }

  lemma BlankAfter(c: char, s: string, a: string, m: string, b: string)
    requires IsSpace(c) && Between(s, a, m, b)
    ensures Between(s + [c], a, m, b + [c])
  {
    assert a + m + b + [c] == a + m + (b + [c]);
  }

  /** Stripping takes blanks off the two ends and nothing else. */
  lemma {:induction false} StripTakesBlanks(s: string) returns (a: string, b: string)
    ensures Between(s, a, Strip(s), b)
    decreases |s|
  {
    a, b := "", "";
    if s != "" && IsSpace(s[0]) {
      a, b := StripTakesBlanks(s[1..]);
      BlankBefore(s[0], s[1..], a, Strip(s[1..]), b);
      a := [s[0]] + a;
      assert s == [s[0]] + s[1..];
    } else if s != "" && IsSpace(s[|s| - 1]) {
      var rest := s[..|s| - 1];
      a, b := StripTakesBlanks(rest);
      BlankAfter(s[|s| - 1], rest, a, Strip(rest), b);
      b := b + [s[|s| - 1]];
      assert s == rest + [s[|s| - 1]];
    }
  }

  /** `s.split(":")`. */
  function Split(s: string): (parts: seq<string>)
    ensures |parts| >= 1
  {
    if s == "" then [""]
    else
      var rest := Split(s[1..]);
      if s[0] == ':' then [""] + rest else [[s[0]] + rest[0]] + rest[1..]
  }

  /** `":".join(parts)`. */
  function Join(parts: seq<string>): string {
    if parts == [] then ""
    else if |parts| == 1 then parts[0]
    else parts[0] + ":" + Join(parts[1..])
  }

  lemma {:induction false} JoinSplit(s: string)
    ensures Join(Split(s)) == s
  {
    if s != "" {
      var rest := Split(s[1..]);
      JoinSplit(s[1..]);
      if s[0] == ':' {
        assert Split(s)[1..] == rest;
      } else {
        assert Split(s)[1..] == rest[1..];
      }
    }
  }

  /** Splitting puts a colon-free first field in front of the fields of what follows. */
  lemma {:induction false} SplitField(field: string, rest: string)
    requires ':' !in field
    ensures Split(field + ":" + rest) == [field] + Split(rest)
  {
    var s := field + ":" + rest;
    if field == "" {
      assert s[1..] == rest;
    } else {
      assert s[1..] == field[1..] + ":" + rest;
      SplitField(field[1..], rest);
      assert Split(s) == [[field[0]] + field[1..]] + Split(rest);
      assert [field[0]] + field[1..] == field;
    }
  }

  /** Five leading fields, as the session id parser meets them. */
  function Prefixed(a: string, b: string, c: string, d: string, e: string, rest: string): string {
    a + ":" + (b + ":" + (c + ":" + (d + ":" + (e + ":" + rest))))
  }

  lemma SplitPrefixed(a: string, b: string, c: string, d: string, e: string, rest: string)
    requires ':' !in a && ':' !in b && ':' !in c && ':' !in d && ':' !in e
    ensures Split(Prefixed(a, b, c, d, e, rest)) == [a, b, c, d, e] + Split(rest)
  {
    SplitField(e, rest);
    SplitField(d, e + ":" + rest);
    SplitField(c, d + ":" + (e + ":" + rest));
    SplitField(b, c + ":" + (d + ":" + (e + ":" + rest)));
    SplitField(a, b + ":" + (c + ":" + (d + ":" + (e + ":" + rest))));
  }

  lemma JoinPrefixed(parts: seq<string>)
    requires |parts| >= 6
    ensures Join(parts) == Prefixed(parts[0], parts[1], parts[2], parts[3], parts[4], Join(parts[5..]))
  {
    var p1, p2, p3, p4, p5 := parts[1..], parts[2..], parts[3..], parts[4..], parts[5..];
    assert p1[1..] == p2 && p2[1..] == p3 && p3[1..] == p4 && p4[1..] == p5;
    assert Join(p4) == parts[4] + ":" + Join(p5);
    assert Join(p3) == parts[3] + ":" + Join(p4);
    assert Join(p2) == parts[2] + ":" + Join(p3);
    assert Join(p1) == parts[1] + ":" + Join(p2);
  }

  lemma PrefixedAssociative(a: string, b: string, c: string, d: string, e: string, rest: string)
    ensures Prefixed(a, b, c, d, e, rest) == Prefixed(a, b, c, d, e, "") + rest
  {
    assert e + ":" + rest == (e + ":" + "") + rest;
    assert d + ":" + ((e + ":" + "") + rest) == (d + ":" + (e + ":" + "")) + rest;
    var x3 := d + ":" + (e + ":" + "");
    assert c + ":" + (x3 + rest) == (c + ":" + x3) + rest;
    var x2 := c + ":" + x3;
    assert b + ":" + (x2 + rest) == (b + ":" + x2) + rest;
    var x1 := b + ":" + x2;
    assert a + ":" + (x1 + rest) == (a + ":" + x1) + rest;
  }

  /** Python's `<=` on strings: lexicographic by code point. */
  predicate LexLe(a: string, b: string) {
    a == "" || (b != "" && (a[0] < b[0] || (a[0] == b[0] && LexLe(a[1..], b[1..]))))
  }

  lemma {:induction false} LexTotal(a: string, b: string)
    ensures LexLe(a, b) || LexLe(b, a)
    ensures LexLe(a, b) && LexLe(b, a) ==> a == b
  {
    if a != "" && b != "" && a[0] == b[0] {
      LexTotal(a[1..], b[1..]);
      assert a == [a[0]] + a[1..] && b == [b[0]] + b[1..];
    }
  }

  lemma {:induction false} LexTransitive(a: string, b: string, c: string)
    requires LexLe(a, b) && LexLe(b, c)
    ensures LexLe(a, c)
  {
    if a != "" && a[0] == b[0] == c[0] {
      LexTransitive(a[1..], b[1..], c[1..]);
    }
  }
}
