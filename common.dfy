/** Small value types and string helpers shared by every module of the bot's model. */
module Common {

  /** An optional value: a JavaScript `null`/`undefined` is `None`. */
  datatype Option<T> = None | Some(value: T) {
    function GetOr(default: T): T {
      match this
      case Some(v) => v
      case None => default
    }
  }

  /** The outcome of a call that may throw: `Err` carries the error's description. */
  datatype Result<T> = Ok(value: T) | Err(error: string)

  /** JavaScript truthiness of an optional string: `null`, `undefined` and `""` are falsy. */
  predicate Truthy(s: Option<string>) {
    s.Some? && s.value != ""
  }

  /** `p` is a prefix of `s`, as JavaScript's `startsWith` decides it. */
  predicate StartsWith(s: string, p: string) {
    |p| <= |s| && s[..|p|] == p
  }

  /** `p` is a suffix of `s`, as JavaScript's `endsWith` decides it. */
  predicate EndsWith(s: string, p: string) {
    |p| <= |s| && s[|s| - |p|..] == p
  }

  /** `sub` occurs in `s` starting at index `at`. */
  predicate OccursAt(sub: string, s: string, at: int) {
    0 <= at && at + |sub| <= |s| && s[at..at + |sub|] == sub
  }

  lemma OccursAtShift(sub: string, pre: string, s: string, at: int)
    requires OccursAt(sub, s, at)
    ensures OccursAt(sub, pre + s, |pre| + at)
  {
    assert (pre + s)[|pre| + at..|pre| + at + |sub|] == s[at..at + |sub|];
  }

  lemma OccursAtExtend(sub: string, s: string, t: string, at: int)
    requires OccursAt(sub, s, at)
    ensures OccursAt(sub, s + t, at)
  {
    assert (s + t)[at..at + |sub|] == s[at..at + |sub|];
  }

  lemma StartsWithConcat(p: string, rest: string)
    ensures StartsWith(p + rest, p)
  {
    assert (p + rest)[..|p|] == p;
  }

  /** The parts in order with `sep` between each two neighbours, as JavaScript's array join builds it. */
  function Join(parts: seq<string>, sep: string): (r: string)
    ensures |parts| == 1 ==> r == parts[0]
  {
    if |parts| == 0 then ""
    else if |parts| == 1 then parts[0]
    else parts[0] + sep + Join(parts[1..], sep)
  }

  /** Joining a non-empty list whose first part is non-empty never yields the empty string. */
  lemma {:induction false} JoinNonEmpty(parts: seq<string>, sep: string)
    requires |parts| > 0 && parts[0] != ""
    ensures Join(parts, sep) != ""
  {
    if |parts| > 1 {
      assert Join(parts, sep)[0] == parts[0][0];
    }
  }

  /** Where part `i` starts in the join: the lengths of the earlier parts, each followed by a separator. */
  function JoinOffset(parts: seq<string>, sep: string, i: nat): nat
    requires i < |parts|
  {
    if i == 0 then 0 else JoinOffset(parts, sep, i - 1) + |parts[i - 1]| + |sep|
  }

  /** Dropping the first part moves every later offset back by that part and one separator. */
  lemma {:induction false} JoinOffsetTail(parts: seq<string>, sep: string, i: nat)
    requires 0 < i < |parts|
    ensures JoinOffset(parts, sep, i) == |parts[0]| + |sep| + JoinOffset(parts[1..], sep, i - 1)
  {
    if i > 1 {
      JoinOffsetTail(parts, sep, i - 1);
      assert parts[1..][i - 2] == parts[i - 1];
    }
  }

  /** A join of two or more parts is the first part, a separator, then the join of the rest. */
  lemma JoinUnfold(parts: seq<string>, sep: string)
    requires |parts| > 1
    ensures Join(parts, sep) == (parts[0] + sep) + Join(parts[1..], sep)
  {
  }

  /** Part `i` of a join sits at its offset. */
  lemma {:induction false} JoinPartAt(parts: seq<string>, sep: string, i: nat)
    requires i < |parts|
    ensures OccursAt(parts[i], Join(parts, sep), JoinOffset(parts, sep, i))
    decreases i
  {
    if |parts| == 1 {
      assert parts[0][0..|parts[0]|] == parts[0];
    } else {
      JoinUnfold(parts, sep);
      var tail := Join(parts[1..], sep);
      if i == 0 {
        assert ((parts[0] + sep) + tail)[0..|parts[0]|] == parts[0];
      } else {
        JoinOffsetTail(parts, sep, i);
        JoinPartAt(parts[1..], sep, i - 1);
        OccursAtShift(parts[i], parts[0] + sep, tail, JoinOffset(parts[1..], sep, i - 1));
      }
    }
  }

  /** A separator follows every part of a join but the last. */
  lemma {:induction false} JoinSepAt(parts: seq<string>, sep: string, i: nat)
    requires i + 1 < |parts|
    ensures OccursAt(sep, Join(parts, sep), JoinOffset(parts, sep, i) + |parts[i]|)
    decreases i
  {
    JoinUnfold(parts, sep);
    var head := parts[0] + sep;
    var tail := Join(parts[1..], sep);
    if i == 0 {
      assert head[|parts[0]|..] == sep;
      assert (head + tail)[|parts[0]|..|parts[0]| + |sep|] == head[|parts[0]|..];
      assert OccursAt(sep, head + tail, |parts[0]|);
    } else {
      var rest := parts[1..];
      var at := JoinOffset(rest, sep, i - 1) + |rest[i - 1]|;
      assert rest[i - 1] == parts[i];
      JoinOffsetTail(parts, sep, i);
      JoinSepAt(rest, sep, i - 1);
      OccursAtShift(sep, head, tail, at);
      assert OccursAt(sep, head + tail, |head| + at);
    }
  }

  /** A join ends where its last part ends. */
  lemma {:induction false} JoinLength(parts: seq<string>, sep: string)
    requires |parts| > 0
    ensures |Join(parts, sep)| == JoinOffset(parts, sep, |parts| - 1) + |parts[|parts| - 1]|
    decreases |parts|
  {
    if |parts| > 1 {
      JoinUnfold(parts, sep);
      JoinLength(parts[1..], sep);
      JoinOffsetTail(parts, sep, |parts| - 1);
    }
  }

  /** Inside a fixed head and tail, part `i` of a join sits at its offset shifted by the head. */
  lemma JoinPartInFrame(head: string, parts: seq<string>, sep: string, tail: string, i: nat)
    requires i < |parts|
    ensures OccursAt(parts[i], head + Join(parts, sep) + tail, |head| + JoinOffset(parts, sep, i))
  {
    JoinPartAt(parts, sep, i);
    OccursAtShift(parts[i], head, Join(parts, sep), JoinOffset(parts, sep, i));
    OccursAtExtend(parts[i], head + Join(parts, sep), tail, |head| + JoinOffset(parts, sep, i));
  }

  /** Inside a fixed head and tail, a separator follows every part of a join but the last. */
  lemma JoinSepInFrame(head: string, parts: seq<string>, sep: string, tail: string, i: nat)
    requires i + 1 < |parts|
    ensures OccursAt(sep, head + Join(parts, sep) + tail, |head| + JoinOffset(parts, sep, i) + |parts[i]|)
  {
    var j := Join(parts, sep);
    var at := JoinOffset(parts, sep, i) + |parts[i]|;
    JoinSepAt(parts, sep, i);
    OccursAtShift(sep, head, j, at);
    OccursAtExtend(sep, head + j, tail, |head| + at);
  }

  /** Lower-casing of one character, restricted to ASCII letters. */
  function LowerChar(c: char): (d: char)
    ensures 'A' <= c <= 'Z' ==> d as int == c as int + 32
    ensures !('A' <= c <= 'Z') ==> d == c
  {
    if 'A' <= c <= 'Z' then (c as int + 32) as char else c
  }

  /** Lower-casing of a string, restricted to ASCII letters. */
  function Lower(s: string): (r: string)
    ensures |r| == |s|
    ensures forall i :: 0 <= i < |s| ==> r[i] == LowerChar(s[i])
  {
    if s == [] then [] else [LowerChar(s[0])] + Lower(s[1..])
  }

  /** Lower-casing twice is lower-casing once, so comparing lower-cased names ignores case. */
  lemma LowerIdempotent(s: string)
    ensures Lower(Lower(s)) == Lower(s)
  {
    assert forall i :: 0 <= i < |s| ==> LowerChar(LowerChar(s[i])) == LowerChar(s[i]);
  }
}
