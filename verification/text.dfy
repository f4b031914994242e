/** The string operations the clients rely on: Python's substring test
    `sub in s`, `s.split(sep)` for a non-empty separator, and its inverse
    `sep.join(parts)`. */
module Text {
  import opened Results

  /** `sub` occurs in `s` starting at index `i`. */
  predicate OccursAt(s: string, sub: string, i: int) {
    0 <= i && i + |sub| <= |s| && s[i..i + |sub|] == sub
  }

  /** Python's `sub in s`. */
  predicate Contains(s: string, sub: string) {
    Find(s, sub).Some?
  }

  /** Index of the first occurrence of `sub` in `s`, as `str.find` computes
      it; `None` where `str.find` returns -1. */
  function Find(s: string, sub: string): (r: Option<nat>)
    ensures r.Some? ==> OccursAt(s, sub, r.value)
    decreases |s|
  {
    if |s| < |sub| then None
    else if s[..|sub|] == sub then Some(0)
    else
      match Find(s[1..], sub)
      case None => None
      case Some(j) => Some(j + 1)
  }

  lemma ShiftOccurrence(s: string, sub: string)
    requires |s| > 0
    ensures forall j :: 1 <= j ==> (OccursAt(s, sub, j) <==> OccursAt(s[1..], sub, j - 1))
  {
    forall j | 1 <= j
      ensures OccursAt(s, sub, j) <==> OccursAt(s[1..], sub, j - 1)
    {
      if j + |sub| <= |s| {
        assert s[1..][j - 1..j - 1 + |sub|] == s[j..j + |sub|];
      }
    }
  }

  /** `Find` reports an occurrence with none before it, or reports that
      there is none at all. */
  lemma {:induction false} FindSpec(s: string, sub: string)
    ensures Find(s, sub).Some? ==> forall j :: 0 <= j < Find(s, sub).value ==> !OccursAt(s, sub, j)
    ensures Find(s, sub).None? ==> forall j :: !OccursAt(s, sub, j)
    decreases |s|
  {
    if |s| >= |sub| && s[..|sub|] != sub {
      assert !OccursAt(s, sub, 0);
      FindSpec(s[1..], sub);
      ShiftOccurrence(s, sub);
    }
  }

  /** The substring test holds exactly when there is an occurrence. */
  lemma ContainsOccurs(s: string, sub: string)
    ensures Contains(s, sub) <==> exists i :: OccursAt(s, sub, i)
  {
    FindSpec(s, sub);
    if Find(s, sub).Some? {
      assert OccursAt(s, sub, Find(s, sub).value);
    }
  }

  /** The first occurrence is determined by the occurrences alone. */
  lemma FindIsFirst(s: string, sub: string, i: nat)
    requires OccursAt(s, sub, i)
    requires forall j :: 0 <= j < i ==> !OccursAt(s, sub, j)
    ensures Find(s, sub) == Some(i)
  {
    FindSpec(s, sub);
  }

  /** Python's `s.split(sep)`: the pieces between successive occurrences,
      scanning left to right. Python refuses an empty separator. */
  function Split(s: string, sep: string): (parts: seq<string>)
    requires |sep| > 0
    ensures |parts| >= 1
    decreases |s|
  {
    match Find(s, sep)
    case None => [s]
    case Some(j) =>
      [s[..j]] + Split(s[j + |sep|..], sep)
  }

  /** No piece of a split holds the separator. */
  lemma {:induction false} SplitPieces(s: string, sep: string)
    requires |sep| > 0
    ensures forall k :: 0 <= k < |Split(s, sep)| ==> !Contains(Split(s, sep)[k], sep)
    decreases |s|
  {
    match Find(s, sep)
    case None =>
    case Some(j) =>
      FindSpec(s, sep);
      PrefixBeforeFirstOccurrence(s, sep, j);
      SplitPieces(s[j + |sep|..], sep);
  }

  lemma PrefixBeforeFirstOccurrence(s: string, sep: string, j: nat)
    requires |sep| > 0 && j <= |s|
    requires forall i :: 0 <= i < j ==> !OccursAt(s, sep, i)
    ensures !Contains(s[..j], sep)
  {
    forall i | 0 <= i <= j - |sep|
      ensures !OccursAt(s[..j], sep, i)
    {
      assert s[..j][i..i + |sep|] == s[i..i + |sep|];
      assert !OccursAt(s, sep, i);
    }
    ContainsOccurs(s[..j], sep);
  }

  /** Python's `sep.join(parts)`. */
  function Join(parts: seq<string>, sep: string): string
    requires |parts| >= 1
    decreases |parts|
  {
    if |parts| == 1 then parts[0] else parts[0] + sep + Join(parts[1..], sep)
  }

  /** Joining one more piece puts a separator and the piece at the end. */
  lemma {:induction false} JoinAppend(parts: seq<string>, last: string, sep: string)
    requires |parts| >= 1
    ensures Join(parts + [last], sep) == Join(parts, sep) + sep + last
    decreases |parts|
  {
    if |parts| > 1 {
      assert (parts + [last])[1..] == parts[1..] + [last];
      JoinAppend(parts[1..], last, sep);
    }
  }

  /** Joining the pieces of a split gives back the original text. */
  lemma {:induction false} JoinSplit(s: string, sep: string)
    requires |sep| > 0
    ensures Join(Split(s, sep), sep) == s
    decreases |s|
  {
    match Find(s, sep)
    case None =>
    case Some(j) =>
      var rest := s[j + |sep|..];
      var parts := Split(s, sep);
      assert parts == [s[..j]] + Split(rest, sep);
      assert parts[0] == s[..j] && parts[1..] == Split(rest, sep);
      JoinSplit(rest, sep);
      assert Join(parts, sep) == s[..j] + sep + rest;
      assert s == s[..j] + s[j..j + |sep|] + rest;
  }

  /** No proper prefix of `sep` equals a suffix of it, so two occurrences
      of `sep` never overlap ("\n" and ": " are such separators). */
  predicate Unbordered(sep: string) {
    forall k :: 0 < k < |sep| ==> sep[..k] != sep[|sep| - k..]
  }

  /** In `p + sep + rest`, the first occurrence of an unbordered `sep` is the
      one right after `p` when `p` itself holds none. */
  lemma FirstOccurrenceAfter(p: string, sep: string, rest: string)
    requires |sep| > 0 && Unbordered(sep)
    requires !Contains(p, sep)
    ensures Find(p + sep + rest, sep) == Some(|p|)
  {
    var s := p + sep + rest;
    assert s[|p|..|p| + |sep|] == sep;
    ContainsOccurs(p, sep);
    forall j | 0 <= j < |p|
      ensures !OccursAt(s, sep, j)
    {
      if j + |sep| <= |p| {
        assert s[j..j + |sep|] == p[j..j + |sep|];
        assert !OccursAt(p, sep, j);
      } else {
        NoStraddle(p, sep, rest, j);
      }
    }
    FindIsFirst(s, sep, |p|);
  }

  /** An occurrence of an unbordered `sep` cannot begin inside `p` and end
      inside the `sep` that follows it. */
  lemma NoStraddle(p: string, sep: string, rest: string, j: nat)
    requires Unbordered(sep)
    requires j < |p| < j + |sep|
    ensures !OccursAt(p + sep + rest, sep, j)
  {
    var s := p + sep + rest;
    var m := j + |sep| - |p|;
    assert s[|p|..j + |sep|] == sep[..m];
  }

  /** Splitting a join of pieces that hold no separator gives the pieces back. */
  lemma {:induction false} SplitJoin(parts: seq<string>, sep: string)
    requires |parts| >= 1
    requires |sep| > 0 && Unbordered(sep)
    requires forall k :: 0 <= k < |parts| ==> !Contains(parts[k], sep)
    ensures Split(Join(parts, sep), sep) == parts
    decreases |parts|
  {
    if |parts| > 1 {
      var tail := Join(parts[1..], sep);
      assert Join(parts, sep) == parts[0] + sep + tail;
      SplitAfterPiece(parts[0], sep, tail);
      SplitJoin(parts[1..], sep);
    }
  }

  /** Splitting `p + sep + rest`, where `p` holds no separator, yields `p`
      and then the split of `rest`. */
  lemma SplitAfterPiece(p: string, sep: string, rest: string)
    requires |sep| > 0 && Unbordered(sep) && !Contains(p, sep)
    ensures Split(p + sep + rest, sep) == [p] + Split(rest, sep)
  {
    var s := p + sep + rest;
    FirstOccurrenceAfter(p, sep, rest);
    SplitAt(s, sep, |p|);
    assert s[..|p|] == p;
    assert s[|p| + |sep|..] == rest;
  }

  /** A split cuts at the first occurrence and goes on after it. */
  lemma SplitAt(s: string, sep: string, j: nat)
    requires |sep| > 0 && Find(s, sep) == Some(j)
    ensures j + |sep| <= |s|
    ensures Split(s, sep) == [s[..j]] + Split(s[j + |sep|..], sep)
  {
    FoundFits(s, sep, j);
  }

  lemma FoundFits(s: string, sep: string, j: nat)
    requires |sep| > 0 && Find(s, sep) == Some(j)
    ensures j + |sep| <= |s|
  {
    assert OccursAt(s, sep, j);
  }

  /** A text whose characters all avoid `c` cannot contain a text holding `c`. */
  lemma MissingCharacter(s: string, sub: string, c: char)
    requires c in sub && c !in s
    ensures !Contains(s, sub)
  {
    var k :| 0 <= k < |sub| && sub[k] == c;
    forall i | 0 <= i
      ensures !OccursAt(s, sub, i)
    {
      if i + |sub| <= |s| {
        assert s[i..i + |sub|][k] == s[i + k];
      }
    }
    ContainsOccurs(s, sub);
  }

  /** A one-character text occurs exactly when its character does. */
  lemma ContainsChar(s: string, c: char)
    ensures Contains(s, [c]) <==> c in s
  {
    ContainsOccurs(s, [c]);
    if c in s {
      var i :| 0 <= i < |s| && s[i] == c;
      assert s[i..i + 1] == [c];
      assert OccursAt(s, [c], i);
    }
    forall i | OccursAt(s, [c], i)
      ensures c in s
    {
      assert s[i..i + 1][0] == s[i];
    }
  }

  /** Splitting two pieces joined by a character neither holds. */
  lemma SplitPair(p: string, q: string, c: char)
    requires c !in p && c !in q
    ensures Split(p + [c] + q, [c]) == [p, q]
  {
    ContainsChar(p, c);
    ContainsChar(q, c);
    SplitJoin([p, q], [c]);
    assert Join([p, q], [c]) == p + [c] + q;
  }

  /** Splitting three pieces joined by a character none of them holds. */
  lemma SplitTriple(p: string, q: string, r: string, c: char)
    requires c !in p && c !in q && c !in r
    ensures Split(p + [c] + q + [c] + r, [c]) == [p, q, r]
  {
    var parts := [p, q, r];
    PiecesWithoutChar(parts, c);
    SplitJoin(parts, [c]);
    JoinTriple(p, q, r, [c]);
  }

  lemma PiecesWithoutChar(parts: seq<string>, c: char)
    requires forall k :: 0 <= k < |parts| ==> c !in parts[k]
    ensures forall k :: 0 <= k < |parts| ==> !Contains(parts[k], [c])
  {
    forall k | 0 <= k < |parts|
      ensures !Contains(parts[k], [c])
    {
      ContainsChar(parts[k], c);
    }
  }

  lemma JoinTriple(p: string, q: string, r: string, sep: string)
    ensures Join([p, q, r], sep) == p + sep + q + sep + r
  {
    assert [p, q, r][1..] == [q, r];
    assert Join([q, r], sep) == q + sep + r;
    assert p + sep + (q + sep + r) == p + sep + q + sep + r;
  }

  /** A text contains itself. */
  lemma ContainsItself(s: string)
    ensures Contains(s, s)
  {
    assert s[..|s|] == s;
  }

  /** An occurrence of `sub` covering the last character of `p` would place
      that character inside `sub`. */
  lemma NoOccurrenceOver(p: string, q: string, sub: string, i: nat)
    requires i < |p| < i + |sub| && p[|p| - 1] !in sub
    ensures !OccursAt(p + q, sub, i)
  {
    if i + |sub| <= |p + q| {
      assert (p + q)[i..i + |sub|][|p| - 1 - i] == p[|p| - 1];
    }
  }

  /** If `p` ends with a character that `sub` lacks, an occurrence of `sub`
      in `p + q` lies wholly inside `p` or wholly inside `q`. */
  lemma ContainsAcrossBoundary(p: string, q: string, sub: string)
    requires |p| > 0 && |sub| > 0 && p[|p| - 1] !in sub
    ensures Contains(p + q, sub) <==> Contains(p, sub) || Contains(q, sub)
  {
    var s := p + q;
    ContainsOccurs(s, sub);
    ContainsOccurs(p, sub);
    ContainsOccurs(q, sub);
    if Contains(s, sub) {
      var i :| OccursAt(s, sub, i);
      if i + |sub| <= |p| {
        assert s[i..i + |sub|] == p[i..i + |sub|];
        assert OccursAt(p, sub, i);
      } else if i >= |p| {
        assert s[i..i + |sub|] == q[i - |p|..i - |p| + |sub|];
        assert OccursAt(q, sub, i - |p|);
      } else {
        NoOccurrenceOver(p, q, sub, i);
      }
    }
    if Contains(p, sub) {
      var i :| OccursAt(p, sub, i);
      assert s[i..i + |sub|] == p[i..i + |sub|];
      assert OccursAt(s, sub, i);
    }
    if Contains(q, sub) {
      var i :| OccursAt(q, sub, i);
      assert s[|p| + i..|p| + i + |sub|] == q[i..i + |sub|];
      assert OccursAt(s, sub, |p| + i);
    }
  }
}
