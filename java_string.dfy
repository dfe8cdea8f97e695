/** The three java.lang string operations the ticket relies on:
    `replaceAll(SPACE, "")`, `split(",")` and `Integer.parseInt`. */
module JavaString {
  import opened Wrappers
  import Regex

  /** `s.replaceAll(Regex.SPACE, "")`: s with every whitespace character deleted,
      the other characters kept in order. */
  function RemoveSpaces(s: string): (r: string)
    ensures |r| <= |s|
    ensures forall c :: c in r <==> c in s && !Regex.IsSpace(c)
    ensures (forall k :: 0 <= k < |s| ==> !Regex.IsSpace(s[k])) ==> r == s
  {
    if |s| == 0 then ""
    else if Regex.IsSpace(s[0]) then RemoveSpaces(s[1..])
    else [s[0]] + RemoveSpaces(s[1..])
  }

  /** Deleting whitespace works character by character: a single character is
      kept exactly when it is not whitespace, and a concatenation is cleaned
      piece by piece, so the kept characters stay in order and keep their
      repetitions. */
  lemma {:induction false} RemoveSpacesAppend(a: string, b: string, c: char)
    ensures RemoveSpaces([c]) == if Regex.IsSpace(c) then "" else [c]
    ensures RemoveSpaces(a + b) == RemoveSpaces(a) + RemoveSpaces(b)
  {
    assert [c][1..] == "";
    if |a| == 0 {
      assert a + b == b;
    } else {
      assert (a + b)[0] == a[0];
      assert (a + b)[1..] == a[1..] + b;
      RemoveSpacesAppend(a[1..], b, c);
    }
  }

  /** The pieces joined back with the separator between them. */
  function Join(parts: seq<string>, sep: char): string
    requires |parts| >= 1
  {
    if |parts| == 1 then parts[0] else parts[0] + [sep] + Join(parts[1..], sep)
  }

  /** Every piece of s between separators, empty ones included. */
  function SplitAll(s: string, sep: char): (r: seq<string>)
    ensures |r| >= 1
    ensures forall k :: 0 <= k < |r| ==> sep !in r[k]
    ensures Join(r, sep) == s
    ensures sep !in s ==> r == [s]
  {
    if |s| == 0 then [""]
    else
      var rest := SplitAll(s[1..], sep);
      if s[0] == sep then
        assert s == [sep] + s[1..];
        [""] + rest
      else
        var r := [[s[0]] + rest[0]] + rest[1..];
        assert r[1..] == rest[1..];
        assert s == [s[0]] + s[1..];
        r
  }

  /** The longest prefix of parts that does not end with an empty piece. */
  function DropTrailingEmpty(parts: seq<string>): (r: seq<string>)
    ensures |r| <= |parts| && r == parts[..|r|]
    ensures |r| == 0 || r[|r| - 1] != ""
    ensures forall k :: |r| <= k < |parts| ==> parts[k] == ""
  {
    if |parts| == 0 then []
    else if parts[|parts| - 1] == "" then DropTrailingEmpty(parts[..|parts| - 1])
    else parts
  }

  /** `s.split(String.valueOf(sep))`: a string with no separator gives itself as the
      only token; otherwise the pieces, with trailing empty pieces removed. */
  function Split(s: string, sep: char): (r: seq<string>)
    ensures forall k :: 0 <= k < |r| ==> sep !in r[k]
    ensures forall k, i :: 0 <= k < |r| && 0 <= i < |r[k]| ==> r[k][i] in s
  {
    if sep !in s then [s] else
      var all := SplitAll(s, sep);
      SplitPiecesFromString(all, sep);
      DropTrailingEmpty(all)
  }

  /** Every character of a piece of a join occurs in the joined string. */
  lemma {:induction false} SplitPiecesFromString(parts: seq<string>, sep: char)
    requires |parts| >= 1
    ensures forall k, i :: 0 <= k < |parts| && 0 <= i < |parts[k]| ==> parts[k][i] in Join(parts, sep)
  {
    var j := Join(parts, sep);
    if |parts| > 1 {
      SplitPiecesFromString(parts[1..], sep);
      assert j == parts[0] + [sep] + Join(parts[1..], sep);
      forall k, i | 0 <= k < |parts| && 0 <= i < |parts[k]| ensures parts[k][i] in j {
        if k == 0 {
          assert parts[k][i] == j[i];
        } else {
          assert parts[k] == parts[1..][k - 1];
          assert parts[k][i] in Join(parts[1..], sep);
        }
      }
    }
  }

  /** Splitting a string built by joining separator-free pieces gives the pieces back. */
  lemma {:induction false} SplitAllJoin(parts: seq<string>, sep: char)
    requires |parts| >= 1
    requires forall k :: 0 <= k < |parts| ==> sep !in parts[k]
    ensures SplitAll(Join(parts, sep), sep) == parts
  {
    if |parts| > 1 {
      SplitAllJoin(parts[1..], sep);
      SplitAllPrefix(parts[0], Join(parts[1..], sep), sep);
      assert [parts[0]] + parts[1..] == parts;
    }
  }

  /** A separator-free word followed by a separator becomes one piece of its own. */
  lemma {:induction false} SplitAllPrefix(w: string, t: string, sep: char)
    requires sep !in w
    ensures SplitAll(w + [sep] + t, sep) == [w] + SplitAll(t, sep)
  {
    var s := w + [sep] + t;
    if |w| == 0 {
      assert s == [sep] + t;
      assert s[1..] == t;
    } else {
      assert s[1..] == w[1..] + [sep] + t;
      SplitAllPrefix(w[1..], t, sep);
      assert [w[0]] + w[1..] == w;
    }
  }

  /** A text made only of separators splits into no token at all: every piece
      is empty and trailing empty pieces are dropped. */
  lemma OnlySeparators(n: nat, sep: char)
    ensures Split(seq(n + 1, _ => sep), sep) == []
  {
    var s := seq(n + 1, _ => sep);
    var parts := [""] + seq(n + 1, _ => "");
    JoinEmptyTail([""], sep, n + 1);
    assert Join(parts, sep) == s;
    assert forall k :: 0 <= k < |parts| ==> parts[k] == "";
    SplitAllJoin(parts, sep);
    assert s[0] == sep;
  }

  /** Java's split undoes a join whose last piece is not empty, and ignores
      separators trailing after it. */
  lemma SplitJoin(parts: seq<string>, sep: char, trailing: nat)
    requires |parts| >= 1 && parts[|parts| - 1] != ""
    requires forall k :: 0 <= k < |parts| ==> sep !in parts[k]
    ensures Split(Join(parts, sep) + seq(trailing, _ => sep), sep) == parts
  {
    var extra := parts + seq(trailing, _ => "");
    JoinEmptyTail(parts, sep, trailing);
    assert forall k :: 0 <= k < |extra| ==> sep !in extra[k];
    SplitAllJoin(extra, sep);
    var s := Join(parts, sep) + seq(trailing, _ => sep);
    if sep !in s {
      SplitAllJoin(parts, sep);
      assert trailing == 0;
      assert SplitAll(s, sep) == [s];
    } else {
      var r := DropTrailingEmpty(extra);
      assert r == extra[..|parts|] == parts;
    }
  }

  /** Joining with empty pieces appended adds one separator per empty piece. */
  lemma {:induction false} JoinEmptyTail(parts: seq<string>, sep: char, trailing: nat)
    requires |parts| >= 1
    decreases |parts| + trailing
    ensures Join(parts + seq(trailing, _ => ""), sep) == Join(parts, sep) + seq(trailing, _ => sep)
  {
    if |parts| == 1 {
      if trailing > 0 {
        var tail := seq(trailing - 1, _ => "");
        assert (parts + seq(trailing, _ => ""))[1..] == [""] + tail;
        JoinEmptyTail([""], sep, trailing - 1);
        assert [""] + tail == [""] + seq(trailing - 1, _ => "");
        assert seq(trailing, _ => sep) == [sep] + seq(trailing - 1, _ => sep);
      }
    } else {
      JoinEmptyTail(parts[1..], sep, trailing);
      assert (parts + seq(trailing, _ => ""))[1..] == parts[1..] + seq(trailing, _ => "");
    }
  }

  /** Joining pieces free of whitespace with a non-space separator gives a
      string free of whitespace. */
  lemma {:induction false} JoinWithoutSpaces(parts: seq<string>, sep: char)
    requires |parts| >= 1 && !Regex.IsSpace(sep)
    requires forall k, i :: 0 <= k < |parts| && 0 <= i < |parts[k]| ==> !Regex.IsSpace(parts[k][i])
    ensures forall i :: 0 <= i < |Join(parts, sep)| ==> !Regex.IsSpace(Join(parts, sep)[i])
  {
    if |parts| > 1 {
      JoinWithoutSpaces(parts[1..], sep);
      var j := Join(parts, sep);
      assert j == parts[0] + [sep] + Join(parts[1..], sep);
      forall i | 0 <= i < |j| ensures !Regex.IsSpace(j[i]) {
        if i > |parts[0]| {
          assert j[i] == Join(parts[1..], sep)[i - |parts[0]| - 1];
        }
      }
    }
  }

  /** The value of a string of decimal digits. */
  function DigitsValue(s: string): (n: nat)
    requires forall k :: 0 <= k < |s| ==> Regex.IsDigit(s[k])
  {
    if |s| == 0 then 0
    else
      assert Regex.IsDigit(s[|s| - 1]);
      DigitsValue(s[..|s| - 1]) * 10 + (s[|s| - 1] as int - '0' as int)
  }

  /** `Integer.parseInt(s)`: an optional '+' or '-' followed by one or more digits;
      anything else is a NumberFormatException, here None. */
  function ParseInt(s: string): (r: Option<int>)
    ensures r.Some? <==> Regex.IsNumber(s) || (|s| > 0 && (s[0] == '+' || s[0] == '-') && Regex.IsNumber(s[1..]))
    ensures Regex.IsNumber(s) ==> r == Some(DigitsValue(s))
  {
    if |s| > 0 && (s[0] == '+' || s[0] == '-') then
      if Regex.IsNumber(s[1..]) then
        var magnitude: int := DigitsValue(s[1..]);
        Some(if s[0] == '-' then -magnitude else magnitude)
      else None
    else if Regex.IsNumber(s) then Some(DigitsValue(s))
    else None
  }

  /** A signed decimal parses to the signed value: '-' negates, '+' does not. */
  lemma ParseSigned(n: nat)
    ensures ParseInt("-" + ToDecimal(n)) == Some(-(n as int))
    ensures ParseInt("+" + ToDecimal(n)) == Some(n as int)
  {
    var digits := ToDecimal(n);
    assert ("-" + digits)[1..] == digits;
    assert ("+" + digits)[1..] == digits;
  }

  /** The decimal text of a natural number (`String.valueOf`). */
  function ToDecimal(n: nat): (r: string)
    ensures Regex.IsNumber(r)
    ensures DigitsValue(r) == n
    ensures ParseInt(r) == Some(n)
  {
    var last := ['0' + (n % 10) as char];
    if n < 10 then last
    else
      var r := ToDecimal(n / 10) + last;
      assert r[..|r| - 1] == ToDecimal(n / 10);
      r
  }
}
