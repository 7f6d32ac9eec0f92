/** Python `str` operations used by the translator, with CPython's semantics
    restricted to what the plugin relies on (single-character separators,
    ASCII case mapping, slices with negative bounds). */
module PyStrings {

  /** `s.startswith(p)` */
  predicate StartsWith(s: string, p: string) {
    |p| <= |s| && s[..|p|] == p
  }

  /** `s.endswith(p)` */
  predicate EndsWith(s: string, p: string) {
    |p| <= |s| && s[|s| - |p|..] == p
  }

  lemma StartsWithSelf(s: string)
    ensures StartsWith(s, s)
  {
  }

  /** Appending keeps a prefix. */
  lemma StartsWithAppend(s: string, p: string, t: string)
    requires StartsWith(s, p)
    ensures StartsWith(s + t, p)
  {
    assert (s + t)[..|p|] == s[..|p|];
  }

  /** `s.find(sub)`: the lowest index where `sub` occurs, or -1. */
  function Find(s: string, sub: string): (r: int)
    ensures -1 <= r <= |s|
    ensures r >= 0 ==> StartsWith(s[r..], sub)
    ensures forall k :: 0 <= k <= |s| && (r < 0 || k < r) ==> !StartsWith(s[k..], sub)
    decreases |s|
  {
    if StartsWith(s, sub) then 0
    else if |s| == 0 then -1
    else
      var k := Find(s[1..], sub);
      assert forall j :: 1 <= j <= |s| ==> s[j..] == s[1..][j - 1..];
      if k < 0 then -1 else k + 1
  }

  /** `sub in s` */
  predicate Contains(s: string, sub: string) {
    Find(s, sub) >= 0
  }

  /** A pattern appended to a text that holds no occurrence of it, not even
      one running into the pattern itself, is first found where it starts. */
  lemma FindAfterHead(head: string, sub: string, tail: string)
    requires |sub| > 0 && !Contains(head + sub[..|sub| - 1], sub)
    ensures Find(head + sub + tail, sub) == |head|
  {
    var s, h := head + sub + tail, head + sub[..|sub| - 1];
    assert s[|head|..][..|sub|] == sub;
    forall k | 0 <= k < |head| ensures !StartsWith(s[k..], sub) {
      assert !StartsWith(h[k..], sub);
      forall j | k <= j < k + |sub| ensures s[j] == h[j] {
        if j >= |head| { assert s[j] == sub[j - |head|] == h[j]; }
      }
      assert s[k..][..|sub|] == h[k..][..|sub|];
    }
  }

  /** `s.split(sep)` for a one-character separator. */
  function Split(s: string, sep: char): (r: seq<string>)
    ensures |r| >= 1
    ensures forall i :: 0 <= i < |r| ==> sep !in r[i]
  {
    if |s| == 0 then [""]
    else
      var rest := Split(s[1..], sep);
      if s[0] == sep then [""] + rest
      else [[s[0]] + rest[0]] + rest[1..]
  }

  /** `sep.join(parts)` */
  function Join(sep: string, parts: seq<string>): string {
    if |parts| == 0 then ""
    else if |parts| == 1 then parts[0]
    else parts[0] + sep + Join(sep, parts[1..])
  }

  /** `''.join(parts)` */
  function Concat(parts: seq<string>): string {
    if |parts| == 0 then "" else parts[0] + Concat(parts[1..])
  }

  function Last(parts: seq<string>): string
    requires |parts| > 0
  {
    parts[|parts| - 1]
  }

  /** Joining the pieces of a split with the separator gives the string back. */
  lemma {:induction false} JoinSplit(s: string, sep: char)
    ensures Join([sep], Split(s, sep)) == s
  {
    if |s| > 0 {
      var rest := Split(s[1..], sep);
      JoinSplit(s[1..], sep);
      if s[0] == sep {
        calc {
          Join([sep], [""] + rest);
          [sep] + Join([sep], rest);
          s;
        }
      } else {
        var r := [[s[0]] + rest[0]] + rest[1..];
        if |rest| == 1 {
          assert Join([sep], r) == [s[0]] + rest[0];
        } else {
          assert r[1..] == rest[1..];
          assert Join([sep], rest) == rest[0] + [sep] + Join([sep], rest[1..]);
        }
      }
    }
  }

  /** Splitting a join whose pieces avoid the separator gives the pieces back. */
  lemma {:induction false} SplitJoin(parts: seq<string>, sep: char)
    requires |parts| > 0
    requires forall i :: 0 <= i < |parts| ==> sep !in parts[i]
    ensures Split(Join([sep], parts), sep) == parts
  {
    if |parts| == 1 {
      SplitNoSeparator(parts[0], sep);
    } else {
      SplitJoin(parts[1..], sep);
      SplitAppend(parts[0], sep, Join([sep], parts[1..]));
    }
  }

  lemma {:induction false} SplitNoSeparator(s: string, sep: char)
    requires sep !in s
    ensures Split(s, sep) == [s]
  {
    if |s| > 0 {
      assert s[0] in s;
      SplitNoSeparator(s[1..], sep);
      assert [s[0]] + s[1..] == s;
    }
  }

  lemma {:induction false} SplitAppend(w: string, sep: char, t: string)
    requires sep !in w
    ensures Split(w + [sep] + t, sep) == [w] + Split(t, sep)
  {
    if |w| == 0 {
      assert w + [sep] + t == [sep] + t;
      assert ([sep] + t)[1..] == t;
    } else {
      assert (w + [sep] + t)[1..] == w[1..] + [sep] + t;
      SplitAppend(w[1..], sep, t);
      assert [w[0]] + w[1..] == w;
    }
  }

  lemma SplitTwo(a: string, sep: char, b: string)
    requires sep !in a && sep !in b
    ensures Split(a + [sep] + b, sep) == [a, b]
  {
    SplitNoSeparator(b, sep);
    SplitAppend(a, sep, b);
  }

  /** Splitting after a final separator adds the last piece as a new part. */
  lemma {:induction false} SplitSnoc(t: string, sep: char, w: string)
    requires sep !in w
    ensures Split(t + [sep] + w, sep) == Split(t, sep) + [w]
  {
    if |t| == 0 {
      assert t + [sep] + w == [sep] + w;
      assert ([sep] + w)[1..] == w;
      SplitNoSeparator(w, sep);
    } else {
      assert (t + [sep] + w)[1..] == t[1..] + [sep] + w;
      SplitSnoc(t[1..], sep, w);
      var rest := Split(t[1..], sep);
      if t[0] != sep {
        assert (rest + [w])[0] == rest[0];
        assert (rest + [w])[1..] == rest[1..] + [w];
      }
    }
  }

  /** `''.join(parts + [w]) == ''.join(parts) + w` */
  lemma {:induction false} ConcatSnoc(parts: seq<string>, w: string)
    ensures Concat(parts + [w]) == Concat(parts) + w
  {
    if |parts| == 0 {
      assert parts + [w] == [w];
    } else {
      assert (parts + [w])[1..] == parts[1..] + [w];
      ConcatSnoc(parts[1..], w);
    }
  }

  /** `''.join(s.split(sep))` removes the separators. */
  lemma {:induction false} ConcatSplit(s: string, sep: char)
    ensures Concat(Split(s, sep)) == RemoveChar(s, sep)
  {
    if |s| > 0 {
      ConcatSplit(s[1..], sep);
      var rest := Split(s[1..], sep);
      if s[0] == sep {
        assert ([""] + rest)[1..] == rest;
      } else {
        var r := [[s[0]] + rest[0]] + rest[1..];
        assert r[1..] == rest[1..];
        assert Concat(rest) == rest[0] + Concat(rest[1..]);
      }
    }
  }

  /** `(a + b).lower() == a.lower() + b.lower()` */
  lemma LowerAppend(a: string, b: string)
    ensures Lower(a + b) == Lower(a) + Lower(b)
  {
    assert forall i | 0 <= i < |a + b| :: Lower(a + b)[i] == (Lower(a) + Lower(b))[i];
  }

  /** Title-casing changes only the case of letters. */
  lemma TitleLowered(s: string)
    ensures Lower(Title(s)) == Lower(s)
  {
    assert forall i | 0 <= i < |s| :: Lower(Title(s))[i] == Lower(s)[i];
  }

  /** `s.replace(c, '')` for a one-character `c`. */
  function RemoveChar(s: string, c: char): (r: string)
    ensures c !in r
    ensures |r| <= |s|
    ensures forall i :: 0 <= i < |r| ==> r[i] in s
  {
    if |s| == 0 then ""
    else if s[0] == c then RemoveChar(s[1..], c)
    else [s[0]] + RemoveChar(s[1..], c)
  }

  /** Removing a character the text does not hold changes nothing. */
  lemma {:induction false} RemoveCharAbsent(s: string, c: char)
    requires c !in s
    ensures RemoveChar(s, c) == s
  {
    if |s| > 0 {
      RemoveCharAbsent(s[1..], c);
    }
  }

  /** `s[i:]` with Python's handling of negative and out-of-range bounds. */
  function SliceFrom(s: string, i: int): (r: string)
    ensures |r| <= |s|
  {
    if i >= 0 then (if i <= |s| then s[i..] else "")
    else if -i <= |s| then s[|s| + i..]
    else s
  }

  /** `s[:i]` with Python's handling of negative and out-of-range bounds. */
  function SliceTo(s: string, i: int): (r: string)
    ensures |r| <= |s|
    ensures StartsWith(s, r)
  {
    if i >= 0 then (if i <= |s| then s[..i] else s)
    else if -i <= |s| then s[..|s| + i]
    else ""
  }

  predicate IsUpper(c: char) { 'A' <= c <= 'Z' }
  predicate IsLowerChar(c: char) { 'a' <= c <= 'z' }
  predicate IsLetter(c: char) { IsUpper(c) || IsLowerChar(c) }

  function ToLowerChar(c: char): char {
    if IsUpper(c) then (c as int + 32) as char else c
  }

  function ToUpperChar(c: char): char {
    if IsLowerChar(c) then (c as int - 32) as char else c
  }

  /** `s.lower()` (ASCII letters only). */
  function Lower(s: string): (r: string)
    ensures |r| == |s|
    ensures forall i :: 0 <= i < |s| ==> r[i] == ToLowerChar(s[i])
  {
    seq(|s|, i requires 0 <= i < |s| => ToLowerChar(s[i]))
  }

  /** A string `Lower` leaves as it is. */
  predicate IsLowered(s: string) {
    forall i :: 0 <= i < |s| ==> !IsUpper(s[i])
  }

  /** `s.title()` (ASCII letters only): a letter is upper-cased when the
      character before it is not a letter, and lower-cased otherwise. */
  function Title(s: string): (r: string)
    ensures |r| == |s|
    ensures forall i :: 0 <= i < |s| && !IsLetter(s[i]) ==> r[i] == s[i]
    ensures forall i :: 0 <= i < |s| ==> ToLowerChar(r[i]) == ToLowerChar(s[i])
    ensures |s| > 0 ==> r[0] == ToUpperChar(s[0])
    ensures forall i :: 0 < i < |s| && IsLetter(s[i]) ==>
              r[i] == if IsLetter(s[i - 1]) then ToLowerChar(s[i]) else ToUpperChar(s[i])
  {
    TitleAfterRule(s, false);
    TitleAfter(s, false)
  }

  function TitleAfter(s: string, afterLetter: bool): (r: string)
    ensures |r| == |s|
    ensures forall i :: 0 <= i < |s| && !IsLetter(s[i]) ==> r[i] == s[i]
    ensures forall i :: 0 <= i < |s| ==> ToLowerChar(r[i]) == ToLowerChar(s[i])
    ensures |s| > 0 ==> r[0] == if !IsLetter(s[0]) then s[0]
                               else if afterLetter then ToLowerChar(s[0]) else ToUpperChar(s[0])
  {
    if |s| == 0 then ""
    else
      var c := s[0];
      var d := if !IsLetter(c) then c else if afterLetter then ToLowerChar(c) else ToUpperChar(c);
      [d] + TitleAfter(s[1..], IsLetter(c))
  }

  /** Past the first character, a letter is lower-cased after a letter and
      upper-cased after anything else. */
  lemma {:induction false} TitleAfterRule(s: string, afterLetter: bool)
    ensures forall i :: 0 < i < |s| && IsLetter(s[i]) ==>
              TitleAfter(s, afterLetter)[i] == if IsLetter(s[i - 1]) then ToLowerChar(s[i]) else ToUpperChar(s[i])
  {
    if |s| > 0 {
      var t := s[1..];
      TitleAfterRule(t, IsLetter(s[0]));
      var r, rest := TitleAfter(s, afterLetter), TitleAfter(t, IsLetter(s[0]));
      forall i | 0 < i < |s| && IsLetter(s[i])
        ensures r[i] == if IsLetter(s[i - 1]) then ToLowerChar(s[i]) else ToUpperChar(s[i])
      {
        assert r[i] == rest[i - 1] && t[i - 1] == s[i];
        if i > 1 { assert t[i - 2] == s[i - 1]; }
      }
    }
  }

  /** `str(n)` for a natural number. */
  function NatToString(n: nat): (r: string)
    ensures |r| > 0
    ensures forall i :: 0 <= i < |r| ==> '0' <= r[i] <= '9'
  {
    var d := ['0' + (n % 10) as char];
    if n < 10 then d else NatToString(n / 10) + d
  }

  /** `int(s)` for a string of decimal digits. */
  function DigitsValue(s: string): nat {
    if |s| == 0 then 0
    else 10 * DigitsValue(s[..|s| - 1]) + (if '0' <= s[|s| - 1] <= '9' then (s[|s| - 1] - '0') as nat else 0)
  }

  /** `int(str(n)) == n` */
  lemma {:induction false} NatToStringValue(n: nat)
    ensures DigitsValue(NatToString(n)) == n
  {
    var r := NatToString(n);
    var d := ['0' + (n % 10) as char];
    if n >= 10 {
      NatToStringValue(n / 10);
      assert r[..|r| - 1] == NatToString(n / 10);
    }
    assert r[|r| - 1] == d[0];
  }

  /** `os.path.basename(p)`: the text after the last `/`, or the whole
      path when it has none. */
  function Basename(p: string): (r: string)
    ensures '/' !in r
    ensures EndsWith(p, r)
    ensures r == p || (|r| < |p| && p[|p| - |r| - 1] == '/')
  {
    BasenameFacts(p);
    Last(Split(p, '/'))
  }

  lemma BasenameFacts(p: string)
    ensures var r := Last(Split(p, '/'));
            EndsWith(p, r) && (r == p || (|r| < |p| && p[|p| - |r| - 1] == '/'))
  {
    var parts := Split(p, '/');
    JoinSplit(p, '/');
    var r := Last(parts);
    if |parts| > 1 {
      var init := parts[..|parts| - 1];
      assert init + [r] == parts;
      JoinSnoc("/", init, r);
      var head := Join("/", init);
      assert p == head + "/" + r;
      assert p[|p| - |r|..] == r;
      assert p[|p| - |r| - 1] == '/';
    }
  }

  /** Joining one more piece adds the separator and the piece. */
  lemma {:induction false} JoinSnoc(sep: string, xs: seq<string>, w: string)
    requires |xs| > 0
    ensures Join(sep, xs + [w]) == Join(sep, xs) + sep + w
  {
    if |xs| == 1 {
      assert (xs + [w])[1..] == [w];
    } else {
      assert (xs + [w])[1..] == xs[1..] + [w];
      JoinSnoc(sep, xs[1..], w);
    }
  }
}
