/** Strings as sequences of characters, and `Array.prototype.join` over them. */
module Text {

  /** `t` occurs in `s` starting at position `k`. */
  predicate ContainsAt(s: string, t: string, k: int) {
    0 <= k && k + |t| <= |s| && s[k..k + |t|] == t
  }

  /** `t` occurs somewhere in `s`. */
  predicate IsInfix(t: string, s: string) {
    exists k :: 0 <= k <= |s| && ContainsAt(s, t, k)
  }

  /** An occurrence at a known position is an occurrence. */
  lemma AtIsInfix(s: string, t: string, k: int)
    requires ContainsAt(s, t, k)
    ensures IsInfix(t, s)
  {
  }

  /** A string placed between two others occurs right after the first. */
  lemma InfixAt(pre: string, t: string, post: string)
    ensures ContainsAt(pre + t + post, t, |pre|)
  {
    assert (pre + t + post)[|pre|..|pre| + |t|] == t;
  }

  /** In `a + b + c + d + e` the second part begins right after the first,
      and the fourth right after the first three. */
  lemma FrameAt(a: string, b: string, c: string, d: string, e: string)
    ensures ContainsAt(a + b + c + d + e, b, |a|)
    ensures ContainsAt(a + b + c + d + e, d, |a| + |b| + |c|)
  {
    InfixAt(a, b, c + d + e);
    assert a + b + c + d + e == a + b + (c + d + e);
    InfixAt(a + b + c, d, e);
  }

  /** Sum of the lengths of all parts. */
  function TotalLength(parts: seq<string>): nat {
    if |parts| == 0 then 0 else |parts[0]| + TotalLength(parts[1..])
  }

  /** `parts.join(sep)` (section 23.1.3.18 of ECMA-262): the parts in order
      with one separator between each neighbouring pair; no parts give the
      empty string. */
  function Join(parts: seq<string>, sep: string): (r: string)
    ensures |parts| == 0 ==> r == ""
    ensures |parts| > 0 ==> |r| == TotalLength(parts) + (|parts| - 1) * |sep|
  {
    if |parts| == 0 then ""
    else if |parts| == 1 then parts[0]
    else parts[0] + sep + Join(parts[1..], sep)
  }

  /** Where part `i` begins in `Join(parts, sep)`: the lengths of the earlier
      parts, each followed by one separator. */
  function Offset(parts: seq<string>, sep: string, i: nat): nat
    requires i <= |parts|
  {
    if i == 0 then 0 else Offset(parts, sep, i - 1) + |parts[i - 1]| + |sep|
  }

  lemma {:induction false} OffsetCons(p: string, rest: seq<string>, sep: string, i: nat)
    requires 1 <= i <= |rest| + 1
    ensures Offset([p] + rest, sep, i) == |p| + |sep| + Offset(rest, sep, i - 1)
  {
    if i > 1 {
      OffsetCons(p, rest, sep, i - 1);
      assert ([p] + rest)[i - 1] == rest[i - 2];
    }
  }

  /** Every part appears verbatim in the joined string, at its offset; the
      offsets grow with the index, so the parts appear in their own order. */
  lemma {:induction false} JoinPlacesParts(parts: seq<string>, sep: string, i: nat)
    requires i < |parts|
    ensures ContainsAt(Join(parts, sep), parts[i], Offset(parts, sep, i))
  {
    if |parts| > 1 {
      var rest := parts[1..];
      assert parts == [parts[0]] + rest;
      if i > 0 {
        JoinPlacesParts(rest, sep, i - 1);
        OffsetCons(parts[0], rest, sep, i);
        var j := Offset(rest, sep, i - 1);
        var pre := parts[0] + sep;
        assert Join(parts, sep) == pre + Join(rest, sep);
        assert (pre + Join(rest, sep))[|pre| + j..|pre| + j + |parts[i]|]
            == Join(rest, sep)[j..j + |parts[i]|];
      }
    }
  }

  /** Every part but the last is followed, right where it ends, by the
      separator. */
  lemma {:induction false} JoinPlacesSeparators(parts: seq<string>, sep: string, i: nat)
    requires i + 1 < |parts|
    ensures ContainsAt(Join(parts, sep), sep, Offset(parts, sep, i) + |parts[i]|)
  {
    var rest := parts[1..];
    assert parts == [parts[0]] + rest;
    assert Join(parts, sep) == parts[0] + sep + Join(rest, sep);
    if i == 0 {
      InfixAt(parts[0], sep, Join(rest, sep));
    } else {
      JoinPlacesSeparators(rest, sep, i - 1);
      OffsetCons(parts[0], rest, sep, i);
      var j := Offset(rest, sep, i - 1) + |rest[i - 1]|;
      var pre := parts[0] + sep;
      assert (pre + Join(rest, sep))[|pre| + j..|pre| + j + |sep|]
          == Join(rest, sep)[j..j + |sep|];
    }
  }

  /** Offsets of later parts lie past the end of earlier parts. */
  lemma {:induction false} OffsetsOrdered(parts: seq<string>, sep: string, i: nat, j: nat)
    requires i < j <= |parts|
    ensures Offset(parts, sep, i) + |parts[i]| + |sep| <= Offset(parts, sep, j)
  {
    if j > i + 1 {
      OffsetsOrdered(parts, sep, i, j - 1);
    }
  }

  /** Joining a leading part onto a non-empty rest puts exactly one separator
      between them. */
  lemma JoinCons(p: string, rest: seq<string>, sep: string)
    requires |rest| > 0
    ensures Join([p] + rest, sep) == p + sep + Join(rest, sep)
  {
    assert ([p] + rest)[1..] == rest;
  }

  /** Joining six parts, written out. */
  lemma JoinSix(ls: seq<string>, sep: string)
    requires |ls| == 6
    ensures Join(ls, sep) == ls[0] + sep + ls[1] + sep + ls[2] + sep + ls[3] + sep + ls[4] + sep + ls[5]
  {
    assert ls[5..] == [ls[5]];
    assert ls[4..] == [ls[4]] + ls[5..];
    JoinCons(ls[4], ls[5..], sep);
    assert ls[3..] == [ls[3]] + ls[4..];
    JoinCons(ls[3], ls[4..], sep);
    assert ls[2..] == [ls[2]] + ls[3..];
    JoinCons(ls[2], ls[3..], sep);
    assert ls[1..] == [ls[1]] + ls[2..];
    JoinCons(ls[1], ls[2..], sep);
    assert ls == [ls[0]] + ls[1..];
    JoinCons(ls[0], ls[1..], sep);
  }
}
