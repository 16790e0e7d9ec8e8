/** The PHP string primitives the validator relies on, written out:
    `explode`, `implode`, `str_replace`, `Str::contains` and the decimal
    rendering of an integer inside an interpolated string. */
module Text {

  /** `prefix` is an initial segment of `s`. */
  predicate StartsWith(s: string, prefix: string)
  {
    |prefix| <= |s| && s[..|prefix|] == prefix
  }

  /** `pattern` occurs somewhere in `s` as a contiguous substring
      (`Str::contains`, `strpos(...) !== false`). */
  predicate Occurs(s: string, pattern: string)
    ensures Occurs(s, pattern) ==> |pattern| <= |s|
    decreases |s|
  {
    StartsWith(s, pattern) || (s != [] && Occurs(s[1..], pattern))
  }

  /** PHP `explode(sep, s)`: split `s` at every occurrence of `sep`, scanning
      left to right; the pieces never include the separator. */
  function Explode(s: string, sep: string): (parts: seq<string>)
    requires |sep| > 0
    ensures |parts| >= 1
    decreases |s|
  {
    if s == [] then [""]
    else if StartsWith(s, sep) then [""] + Explode(s[|sep|..], sep)
    else
      var rest := Explode(s[1..], sep);
      [[s[0]] + rest[0]] + rest[1..]
  }

  /** PHP `implode(sep, parts)`. */
  function Join(parts: seq<string>, sep: string): (joined: string)
    ensures |parts| >= 1 ==> parts[0] <= joined
    ensures |parts| == 1 ==> joined == parts[0]
  {
    if |parts| == 0 then ""
    else if |parts| == 1 then parts[0]
    else parts[0] + sep + Join(parts[1..], sep)
  }

  /** PHP `str_replace(pattern, replacement, s)`: every occurrence of
      `pattern`, found left to right without overlap, is replaced. */
  function ReplaceAll(s: string, pattern: string, replacement: string): (replaced: string)
    requires |pattern| > 0
    ensures !Occurs(s, pattern) ==> replaced == s
    decreases |s|
  {
    if s == [] then []
    else if StartsWith(s, pattern) then replacement + ReplaceAll(s[|pattern|..], pattern, replacement)
    else [s[0]] + ReplaceAll(s[1..], pattern, replacement)
  }

  /** The character for a decimal digit. */
  function DigitChar(d: nat): char
    requires d < 10
  {
    ('0' as int + d) as char
  }

  /** The decimal rendering of `n`, as PHP interpolates an integer. */
  function NatToString(n: nat): (s: string)
    ensures |s| >= 1
    ensures forall i :: 0 <= i < |s| ==> '0' <= s[i] <= '9'
    decreases n
  {
    if n < 10 then [DigitChar(n)] else NatToString(n / 10) + [DigitChar(n % 10)]
  }

  /** The value of a string of decimal digits. */
  function ParseDigits(s: string): int
    decreases |s|
  {
    if s == [] then 0 else ParseDigits(s[..|s| - 1]) * 10 + (s[|s| - 1] as int - '0' as int)
  }

  // ---------------------------------------------------------------------
  // Lemmas

  /** A one-character pattern occurs exactly when the character is in `s`. */
  lemma {:induction false} OccursSingle(s: string, c: char)
    ensures Occurs(s, [c]) <==> c in s
    decreases |s|
  {
    if s != [] {
      OccursSingle(s[1..], c);
      assert s == [s[0]] + s[1..];
    }
  }

  /** The middle of a concatenation occurs in it. */
  lemma {:induction false} OccursInside(a: string, b: string, c: string)
    ensures Occurs(a + b + c, b)
    decreases |a|
  {
    if a == [] {
      assert a + b + c == b + c;
      assert (b + c)[..|b|] == b;
    } else {
      OccursInside(a[1..], b, c);
      assert (a + b + c)[1..] == a[1..] + b + c;
    }
  }

  /** The first piece of `explode` is the text before the first separator:
      a prefix of `s` that is either all of `s` or followed by `sep`. */
  lemma {:induction false} ExplodeHead(s: string, sep: string)
    requires |sep| > 0
    ensures Explode(s, sep)[0] <= s
    ensures Explode(s, sep)[0] == s || StartsWith(s[|Explode(s, sep)[0]|..], sep)
    decreases |s|
  {
    if s != [] && !StartsWith(s, sep) {
      ExplodeHead(s[1..], sep);
      var r0 := Explode(s[1..], sep)[0];
      assert Explode(s, sep)[0] == [s[0]] + r0;
      assert s == [s[0]] + s[1..];
      assert s[|[s[0]] + r0|..] == s[1..][|r0|..];
    }
  }

  /** No piece produced by `explode` contains the separator. */
  lemma {:induction false} ExplodePieces(s: string, sep: string)
    requires |sep| > 0
    ensures forall k :: 0 <= k < |Explode(s, sep)| ==> !Occurs(Explode(s, sep)[k], sep)
    decreases |s|
  {
    if s == [] {
    } else if StartsWith(s, sep) {
      ExplodePieces(s[|sep|..], sep);
    } else {
      var rest := Explode(s[1..], sep);
      ExplodePieces(s[1..], sep);
      ExplodeHead(s[1..], sep);
      var h := [s[0]] + rest[0];
      assert h[1..] == rest[0];
      assert h <= s by { assert s == [s[0]] + s[1..]; }
      assert !StartsWith(h, sep);
      assert !Occurs(h, sep);
      var parts := Explode(s, sep);
      forall k | 0 <= k < |parts| ensures !Occurs(parts[k], sep) {
        if k > 0 { assert parts[k] == rest[k]; }
      }
    }
  }

  /** A string with no separator in it explodes to itself alone. */
  lemma {:induction false} ExplodeAbsent(s: string, sep: string)
    requires |sep| > 0
    requires !Occurs(s, sep)
    ensures Explode(s, sep) == [s]
    decreases |s|
  {
    if s != [] {
      ExplodeAbsent(s[1..], sep);
      assert s == [s[0]] + s[1..];
    }
  }

  lemma JoinConsHead(a: string, b: string, t: seq<string>, sep: string)
    ensures Join([a + b] + t, sep) == a + Join([b] + t, sep)
  {
    if t != [] {
      assert ([a + b] + t)[1..] == t;
      assert ([b] + t)[1..] == t;
    }
  }

  /** implode(sep, explode(sep, s)) == s. */
  lemma {:induction false} JoinExplode(s: string, sep: string)
    requires |sep| > 0
    ensures Join(Explode(s, sep), sep) == s
    decreases |s|
  {
    if s == [] {
    } else if StartsWith(s, sep) {
      var tail := s[|sep|..];
      JoinExplode(tail, sep);
      var rest := Explode(tail, sep);
      assert Explode(s, sep) == [""] + rest;
      assert ([""] + rest)[1..] == rest;
      assert Join([""] + rest, sep) == "" + sep + Join(rest, sep);
      assert s == sep + tail;
    } else {
      JoinExplode(s[1..], sep);
      var rest := Explode(s[1..], sep);
      JoinConsHead([s[0]], rest[0], rest[1..], sep);
      assert [rest[0]] + rest[1..] == rest;
      assert s == [s[0]] + s[1..];
    }
  }

  /** Splitting `c` followed by `tail` where `c` has no separator glues `c`
      onto the first piece of `tail`. */
  lemma {:induction false} ExplodeGlue(c: string, tail: string, sep: char)
    requires sep !in c
    ensures var t := Explode(tail, [sep]);
            Explode(c + tail, [sep]) == [c + t[0]] + t[1..]
    decreases |c|
  {
    if c == [] {
      var t := Explode(tail, [sep]);
      assert c + tail == tail;
      assert c + t[0] == t[0];
      assert [t[0]] + t[1..] == t;
    } else {
      ExplodeGlue(c[1..], tail, sep);
      var s := c + tail;
      assert s[0] == c[0] && s[0] != sep;
      assert !StartsWith(s, [sep]);
      assert s[1..] == c[1..] + tail;
      assert [s[0]] + (c[1..] + Explode(tail, [sep])[0]) == c + Explode(tail, [sep])[0];
    }
  }

  /** explode(sep, implode(sep, parts)) == parts when no part holds the
      separator: the inverse of `JoinExplode`. */
  lemma {:induction false} ExplodeJoin(parts: seq<string>, sep: char)
    requires |parts| >= 1
    requires forall k :: 0 <= k < |parts| ==> sep !in parts[k]
    ensures Explode(Join(parts, [sep]), [sep]) == parts
    decreases |parts|
  {
    if |parts| == 1 {
      OccursSingle(parts[0], sep);
      ExplodeAbsent(parts[0], [sep]);
    } else {
      var more := parts[1..];
      ExplodeJoin(more, sep);
      var tail := [sep] + Join(more, [sep]);
      assert Join(parts, [sep]) == parts[0] + tail;
      ExplodeGlue(parts[0], tail, sep);
      assert StartsWith(tail, [sep]);
      assert tail[1..] == Join(more, [sep]);
      var t := Explode(tail, [sep]);
      assert t == [""] + more;
      assert t[0] == "" && t[1..] == more;
      assert parts[0] + t[0] == parts[0];
      assert parts == [parts[0]] + more;
    }
  }

  /** implode puts the separator between its first two parts, and after the
      second part either the string ends or another separator follows. */
  lemma JoinFirstTwo(parts: seq<string>, sep: string)
    requires |parts| >= 2
    ensures parts[0] + sep + parts[1] <= Join(parts, sep)
    ensures |parts| == 2 ==> Join(parts, sep) == parts[0] + sep + parts[1]
    ensures |parts| > 2 ==> parts[0] + sep + parts[1] + sep <= Join(parts, sep)
  {
    var rest := Join(parts[1..], sep);
    assert parts[1..][0] == parts[1];
    if |parts| > 2 {
      assert rest == parts[1] + sep + Join(parts[2..], sep) by { assert parts[1..][1..] == parts[2..]; }
      assert Join(parts, sep) == parts[0] + sep + parts[1] + sep + Join(parts[2..], sep);
    }
    assert parts[1] <= rest;
    assert Join(parts, sep) == parts[0] + sep + rest;
  }

  /** A separator occurs exactly when `explode` yields more than one piece. */
  lemma ExplodeSplits(s: string, sep: string)
    requires |sep| > 0
    ensures |Explode(s, sep)| >= 2 <==> Occurs(s, sep)
  {
    if |Explode(s, sep)| == 1 {
      JoinExplode(s, sep);
      ExplodePieces(s, sep);
    }
    if !Occurs(s, sep) {
      ExplodeAbsent(s, sep);
    }
  }

  /** `str_replace` is `implode(replacement, explode(pattern, s))`. */
  lemma {:induction false} ReplaceAllIsJoinExplode(s: string, pattern: string, replacement: string)
    requires |pattern| > 0
    ensures ReplaceAll(s, pattern, replacement) == Join(Explode(s, pattern), replacement)
    decreases |s|
  {
    if s == [] {
    } else if StartsWith(s, pattern) {
      ReplaceAllIsJoinExplode(s[|pattern|..], pattern, replacement);
      var rest := Explode(s[|pattern|..], pattern);
      assert ([""] + rest)[1..] == rest;
    } else {
      ReplaceAllIsJoinExplode(s[1..], pattern, replacement);
      var rest := Explode(s[1..], pattern);
      JoinConsHead([s[0]], rest[0], rest[1..], replacement);
      assert [rest[0]] + rest[1..] == rest;
    }
  }

  /** Reading back the decimal rendering gives the number. */
  lemma {:induction false} ParseNatToString(n: nat)
    ensures ParseDigits(NatToString(n)) == n
    decreases n
  {
    if n >= 10 {
      ParseNatToString(n / 10);
      var s := NatToString(n);
      assert s[..|s| - 1] == NatToString(n / 10);
    }
  }
}
