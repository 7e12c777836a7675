/** Text helpers used by the header codec: ASCII lower-casing, trimming of
    spaces and tabs, and splitting and joining on a separator character. */
module Text {

  predicate IsUpper(c: char) { 'A' <= c <= 'Z' }

  /** A string with no upper-case ASCII letter. */
  predicate IsLowerCase(s: string) { forall i :: 0 <= i < |s| ==> !IsUpper(s[i]) }

  function LowerChar(c: char): (r: char)
    ensures !IsUpper(r)
    ensures !IsUpper(c) ==> r == c
    ensures IsUpper(c) ==> 'a' <= r <= 'z' && r as int - c as int == 32
  {
    if IsUpper(c) then (c as int + 32) as char else c
  }

  /** Lower-cases every ASCII letter and leaves every other character alone. */
  function Lower(s: string): (r: string)
    ensures |r| == |s| && IsLowerCase(r)
    ensures forall i :: 0 <= i < |s| ==> r[i] == LowerChar(s[i])
  {
    seq(|s|, i requires 0 <= i < |s| => LowerChar(s[i]))
  }

  lemma LowerIdempotent(s: string)
    requires IsLowerCase(s)
    ensures Lower(s) == s
  {
  }

  /** The whitespace set used for trimming: space and horizontal tab. */
  predicate IsSpace(c: char) { c == ' ' || c == '\t' }

  predicate AllSpace(s: string) { forall i :: 0 <= i < |s| ==> IsSpace(s[i]) }

  /** Neither starts nor ends with whitespace. */
  predicate IsTrimmed(s: string)
  {
    s == [] || (!IsSpace(s[0]) && !IsSpace(s[|s| - 1]))
  }

  function TrimStart(s: string): (r: string)
    ensures |r| <= |s| && r == s[|s| - |r|..]
    ensures AllSpace(s[..|s| - |r|])
    ensures r == [] || !IsSpace(r[0])
    decreases |s|
  {
    if s != [] && IsSpace(s[0]) then TrimStart(s[1..]) else s
  }

  function TrimEnd(s: string): (r: string)
    ensures |r| <= |s| && r == s[..|r|]
    ensures AllSpace(s[|r|..])
    ensures r == [] || !IsSpace(r[|r| - 1])
    decreases |s|
  {
    if s != [] && IsSpace(s[|s| - 1]) then TrimEnd(s[..|s| - 1]) else s
  }

  /** Removes leading and trailing whitespace. */
  function Trim(s: string): (r: string)
    ensures IsTrimmed(r)
  {
    TrimEnd(TrimStart(s))
  }

  /** What `Trim` removes is whitespace only, and what it keeps is one
      contiguous piece of the input, starting at offset `a`. */
  lemma TrimKeepsMiddle(s: string) returns (a: nat)
    ensures a + |Trim(s)| <= |s| && Trim(s) == s[a..a + |Trim(s)|]
    ensures AllSpace(s[..a]) && AllSpace(s[a + |Trim(s)|..])
  {
    var t := TrimStart(s);
    a := |s| - |t|;
    TrimmedSlice(s, a, t, TrimEnd(t));
  }

  /** Dropping whitespace `s[..a]` in front and whitespace after `r` in the
      rest `t` leaves `r` as a slice of `s` followed by whitespace only. */
  lemma TrimmedSlice(s: string, a: nat, t: string, r: string)
    requires a <= |s| && t == s[a..] && AllSpace(s[..a])
    requires |r| <= |t| && r == t[..|r|] && AllSpace(t[|r|..])
    ensures a + |r| <= |s| && r == s[a..a + |r|] && AllSpace(s[a + |r|..])
  {
    MiddleOfSuffix(s, a, t, r);
  }

  /** A prefix of a suffix is a slice of the whole sequence, and what follows
      it in the suffix is what follows it in the whole. */
  lemma MiddleOfSuffix<T>(s: seq<T>, a: nat, t: seq<T>, r: seq<T>)
    requires a <= |s| && t == s[a..] && |r| <= |t| && r == t[..|r|]
    ensures a + |r| <= |s| && r == s[a..a + |r|] && s[a + |r|..] == t[|r|..]
  {
  }

  /** Trimming introduces no character that was not there. */
  lemma TrimAddsNothing(s: string, c: char)
    requires c !in s
    ensures c !in Trim(s)
  {
    var a := TrimKeepsMiddle(s);
    var t := Trim(s);
    forall i | 0 <= i < |t| ensures t[i] != c {
      assert t[i] == s[a + i];
    }
  }

  lemma TrimOfTrimmed(s: string)
    requires IsTrimmed(s)
    ensures Trim(s) == s
  {
  }

  /** A single space before a trimmed string is trimmed away. */
  lemma TrimLeadingSpace(s: string)
    requires IsTrimmed(s)
    ensures Trim([' '] + s) == s
  {
    assert ([' '] + s)[1..] == s;
    assert TrimStart(s) == s;
    TrimOfTrimmed(s);
  }

  lemma TrimIdempotent(s: string)
    ensures Trim(Trim(s)) == Trim(s)
  {
    TrimOfTrimmed(Trim(s));
  }

  /** Number of occurrences of `c` in `s`. */
  function Count(s: string, c: char): nat
  {
    if s == [] then 0 else (if s[0] == c then 1 else 0) + Count(s[1..], c)
  }

  /** Splits `s` at every occurrence of `sep`, keeping empty pieces, as
      Foundation's `components(separatedBy:)` does: `k` separators give
      `k + 1` pieces, none of which contains the separator. */
  function Split(s: string, sep: char): (r: seq<string>)
    ensures |r| == Count(s, sep) + 1
    ensures forall i :: 0 <= i < |r| ==> sep !in r[i]
    decreases |s|
  {
    if s == [] then [""]
    else
      var rest := Split(s[1..], sep);
      if s[0] == sep then [""] + rest else [[s[0]] + rest[0]] + rest[1..]
  }

  /** Concatenates `parts` with `sep` between consecutive parts, as Swift's
      `joined(separator:)` does; no parts give the empty string. */
  function Join(parts: seq<string>, sep: char): string
  {
    if |parts| == 0 then ""
    else if |parts| == 1 then parts[0]
    else parts[0] + [sep] + Join(parts[1..], sep)
  }

  /** Joining the pieces of a split gives back the original string. */
  lemma {:induction false} JoinSplit(s: string, sep: char)
    ensures Join(Split(s, sep), sep) == s
    decreases |s|
  {
    if s != [] {
      var rest := Split(s[1..], sep);
      JoinSplit(s[1..], sep);
      if s[0] == sep {
        assert Split(s, sep) == [""] + rest;
        JoinCons("", rest, sep);
      } else {
        assert Split(s, sep) == [[s[0]] + rest[0]] + rest[1..];
        JoinGlue(s[0], rest, sep);
      }
      assert s == [s[0]] + s[1..];
    }
  }

  /** A part in front of at least one more is followed by the separator. */
  lemma JoinCons(x: string, rest: seq<string>, sep: char)
    requires rest != []
    ensures Join([x] + rest, sep) == x + [sep] + Join(rest, sep)
  {
    assert ([x] + rest)[1..] == rest;
  }

  /** A character glued onto the first part comes first in the join. */
  lemma JoinGlue(c: char, rest: seq<string>, sep: char)
    requires rest != []
    ensures Join([[c] + rest[0]] + rest[1..], sep) == [c] + Join(rest, sep)
  {
    var r := [[c] + rest[0]] + rest[1..];
    if |rest| > 1 {
      assert r[1..] == rest[1..];
      assert [c] + (rest[0] + [sep] + Join(rest[1..], sep)) == [c] + rest[0] + [sep] + Join(rest[1..], sep);
    }
  }

  /** Splitting `a + t` where `a` holds no separator glues `a` onto the first
      piece of `t`. */
  lemma {:induction false} SplitPrefix(a: string, t: string, sep: char)
    requires sep !in a
    ensures Split(a + t, sep) == [a + Split(t, sep)[0]] + Split(t, sep)[1..]
    decreases |a|
  {
    if a != [] {
      SplitPrefix(a[1..], t, sep);
      assert (a + t)[1..] == a[1..] + t;
      assert (a + t)[0] == a[0];
      assert [a[0]] + (a[1..] + Split(t, sep)[0]) == a + Split(t, sep)[0];
    } else {
      var pieces := Split(t, sep);
      assert a + t == t;
      assert a + pieces[0] == pieces[0];
      assert [pieces[0]] + pieces[1..] == pieces;
    }
  }

  /** Splitting the join of separator-free parts gives back the parts. */
  lemma {:induction false} SplitJoin(parts: seq<string>, sep: char)
    requires |parts| >= 1
    requires forall i :: 0 <= i < |parts| ==> sep !in parts[i]
    ensures Split(Join(parts, sep), sep) == parts
    decreases |parts|
  {
    if |parts| == 1 {
      SplitPrefix(parts[0], "", sep);
      assert parts[0] + "" == parts[0];
    } else {
      var tail := Join(parts[1..], sep);
      SplitJoin(parts[1..], sep);
      assert Split([sep] + tail, sep) == [""] + parts[1..];
      SplitPrefix(parts[0], [sep] + tail, sep);
      assert parts[0] + [sep] + tail == parts[0] + ([sep] + tail);
      assert parts[0] + "" == parts[0];
      assert [parts[0]] + parts[1..] == parts;
    }
  }
}
