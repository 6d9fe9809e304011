/** A value that may be absent: `Array.prototype.find` returning `undefined`,
    or a loading attempt that produced no document. */
module Options {
  datatype Option<+T> = None | Some(value: T)
}

/** The string operations the keyword search relies on: `toLowerCase`,
    `Array.prototype.join` and `String.prototype.includes`. */
module Text {

  predicate IsUpper(c: char) {
    'A' <= c <= 'Z'
  }

  /** Case fold of one character; only the ASCII letters are folded. */
  function LowerChar(c: char): char {
    if IsUpper(c) then (c as int + 32) as char else c
  }

  /** `s.toLowerCase()`, approximated by an ASCII fold. */
  function Lower(s: string): (r: string)
    ensures |r| == |s|
    ensures forall i :: 0 <= i < |s| ==> r[i] == LowerChar(s[i])
    ensures forall i :: 0 <= i < |r| ==> !IsUpper(r[i])
  {
    if |s| == 0 then "" else [LowerChar(s[0])] + Lower(s[1..])
  }

  /** `parts.join(sep)`: the parts in order, with `sep` between neighbours. */
  function Join(parts: seq<string>, sep: string): string {
    if |parts| == 0 then ""
    else if |parts| == 1 then parts[0]
    else parts[0] + sep + Join(parts[1..], sep)
  }

  /** `s.includes(sub)`: some window of `s` equals `sub`; scanned from the left. */
  predicate Contains(s: string, sub: string)
    decreases |s|
  {
    |sub| <= |s| && (s[..|sub|] == sub || (0 < |s| && Contains(s[1..], sub)))
  }

  /** Reference meaning of containment: `sub` occurs in `s` at offset `i`. */
  ghost predicate OccursAt(s: string, sub: string, i: nat) {
    i + |sub| <= |s| && s[i..i + |sub|] == sub
  }

  lemma {:induction false} ContainsHasOccurrence(s: string, sub: string)
    requires Contains(s, sub)
    ensures exists i: nat :: OccursAt(s, sub, i)
    decreases |s|
  {
    if s[..|sub|] == sub {
      assert OccursAt(s, sub, 0);
    } else {
      ContainsHasOccurrence(s[1..], sub);
      var i: nat :| OccursAt(s[1..], sub, i);
      assert s[1..][i..i + |sub|] == s[i + 1..i + 1 + |sub|];
      assert OccursAt(s, sub, i + 1);
    }
  }

  lemma {:induction false} OccurrenceGivesContains(s: string, sub: string, i: nat)
    requires OccursAt(s, sub, i)
    ensures Contains(s, sub)
    decreases i
  {
    if i == 0 {
      assert s[..|sub|] == s[0..|sub|];
    } else {
      assert s[1..][i - 1..i - 1 + |sub|] == s[i..i + |sub|];
      OccurrenceGivesContains(s[1..], sub, i - 1);
    }
  }

  /** `Contains` agrees with its reference definition in both directions. */
  lemma {:induction false} ContainsIff(s: string, sub: string)
    ensures Contains(s, sub) <==> exists i: nat :: OccursAt(s, sub, i)
  {
    if Contains(s, sub) {
      ContainsHasOccurrence(s, sub);
    }
    if exists i: nat :: OccursAt(s, sub, i) {
      var i: nat :| OccursAt(s, sub, i);
      OccurrenceGivesContains(s, sub, i);
    }
  }

  /** Every string includes the empty string. */
  lemma {:induction false} ContainsEmpty(s: string)
    ensures Contains(s, "")
  {
  }

  /** Containment is transitive: a window of a window is a window. */
  lemma {:induction false} ContainsTransitive(a: string, b: string, c: string)
    requires Contains(a, b) && Contains(b, c)
    ensures Contains(a, c)
  {
    ContainsHasOccurrence(a, b);
    ContainsHasOccurrence(b, c);
    var i: nat :| OccursAt(a, b, i);
    var j: nat :| OccursAt(b, c, j);
    assert a[i + j..i + j + |c|] == c by {
      forall k | 0 <= k < |c|
        ensures a[i + j..i + j + |c|][k] == c[k]
      {
        assert b[j..j + |c|][k] == c[k];
        assert a[i..i + |b|][j + k] == b[j + k];
      }
    }
    OccurrenceGivesContains(a, c, i + j);
  }

  /** A string occurs in any string built around it. */
  lemma {:induction false} ContainsInfix(pre: string, mid: string, post: string)
    ensures Contains(pre + mid + post, mid)
  {
    var s := pre + mid + post;
    assert s[|pre|..|pre| + |mid|] == mid;
    OccurrenceGivesContains(s, mid, |pre|);
  }

  /** Each part of a join occurs in the joined string. */
  lemma {:induction false} PartInJoin(parts: seq<string>, sep: string, k: nat)
    requires k < |parts|
    ensures Contains(Join(parts, sep), parts[k])
  {
    if |parts| == 1 {
      ContainsInfix("", parts[0], "");
      assert "" + parts[0] + "" == parts[0];
    } else if k == 0 {
      ContainsInfix("", parts[0], sep + Join(parts[1..], sep));
      assert "" + parts[0] + (sep + Join(parts[1..], sep)) == Join(parts, sep);
    } else {
      PartInJoin(parts[1..], sep, k - 1);
      var rest := Join(parts[1..], sep);
      ContainsInfix(parts[0] + sep, rest, "");
      assert parts[0] + sep + rest + "" == parts[0] + sep + rest;
      ContainsTransitive(Join(parts, sep), rest, parts[k]);
    }
  }

  /** Folding both sides keeps a containment. */
  lemma {:induction false} LowerKeepsContains(s: string, sub: string)
    requires Contains(s, sub)
    ensures Contains(Lower(s), Lower(sub))
  {
    ContainsHasOccurrence(s, sub);
    var i: nat :| OccursAt(s, sub, i);
    forall k | 0 <= k < |sub|
      ensures Lower(s)[i..i + |sub|][k] == Lower(sub)[k]
    {
      assert s[i..i + |sub|][k] == sub[k];
    }
    OccurrenceGivesContains(Lower(s), Lower(sub), i);
  }
}
