/** Splitting, joining and searching of strings, as the harness uses them on filters and labels. */
module Text {

  /** `str::split(sep)`: always at least one part, and the parts never contain `sep`. */
  function Split(s: string, sep: char): (parts: seq<string>)
    ensures |parts| >= 1
    ensures forall k :: 0 <= k < |parts| ==> sep !in parts[k]
  {
    if s == "" then [""]
    else
      var rest := Split(s[1..], sep);
      if s[0] == sep then [""] + rest
      else [[s[0]] + rest[0]] + rest[1..]
  }

  function Join(parts: seq<string>, glue: string): string
  {
    if parts == [] then ""
    else if |parts| == 1 then parts[0]
    else parts[0] + glue + Join(parts[1..], glue)
  }

  predicate OccursAt(s: string, pattern: string, k: nat)
  {
    k + |pattern| <= |s| && s[k..k + |pattern|] == pattern
  }

  /** `str::contains`. */
  predicate Contains(s: string, pattern: string)
    ensures Contains(s, pattern) <==> exists k: nat :: OccursAt(s, pattern, k)
  {
    if |s| < |pattern| then false
    else if OccursAt(s, pattern, 0) then true
    else if s == "" then false
    else
      assert forall k: nat :: OccursAt(s[1..], pattern, k) ==> OccursAt(s, pattern, k + 1);
      assert forall k: nat :: k > 0 && OccursAt(s, pattern, k) ==> OccursAt(s[1..], pattern, k - 1) by {
        forall k: nat | k > 0 && OccursAt(s, pattern, k) ensures OccursAt(s[1..], pattern, k - 1) {
          assert s[1..][k - 1..k - 1 + |pattern|] == s[k..k + |pattern|];
        }
      }
      Contains(s[1..], pattern)
  }

  lemma ContainsMiddle(u: string, pattern: string, w: string)
    ensures Contains(u + pattern + w, pattern)
  {
    assert OccursAt(u + pattern + w, pattern, |u|);
  }

  lemma SplitAround(s: string, pattern: string) returns (u: string, w: string)
    requires Contains(s, pattern)
    ensures u + pattern + w == s
  {
    var k: nat :| OccursAt(s, pattern, k);
    u, w := s[..k], s[k + |pattern|..];
  }

  lemma {:induction false} SplitOfUnseparated(s: string, sep: char)
    requires sep !in s
    ensures Split(s, sep) == [s]
  {
    if s != "" {
      SplitOfUnseparated(s[1..], sep);
      assert [s[0]] + s[1..] == s;
    }
  }

  /** Gluing two texts with the separator concatenates their parts. */
  lemma {:induction false} SplitOfGlued(a: string, sep: char, b: string)
    ensures Split(a + [sep] + b, sep) == Split(a, sep) + Split(b, sep)
  {
    var whole := a + [sep] + b;
    if a == "" {
      assert whole[1..] == b;
    } else {
      assert whole[1..] == a[1..] + [sep] + b;
      SplitOfGlued(a[1..], sep, b);
    }
  }

  lemma {:induction false} JoinOfSplit(s: string, sep: char)
    ensures Join(Split(s, sep), [sep]) == s
  {
    if s != "" {
      JoinOfSplit(s[1..], sep);
      var rest := Split(s[1..], sep);
      if s[0] == sep {
        assert ([""] + rest)[1..] == rest;
      } else if |rest| > 1 {
        assert ([[s[0]] + rest[0]] + rest[1..])[1..] == rest[1..];
      }
    }
  }

  lemma {:induction false} SplitInvertsJoin(parts: seq<string>, sep: char)
    requires parts != []
    requires forall k :: 0 <= k < |parts| ==> sep !in parts[k]
    ensures Split(Join(parts, [sep]), sep) == parts
  {
    SplitOfUnseparated(parts[0], sep);
    if |parts| > 1 {
      SplitInvertsJoin(parts[1..], sep);
      SplitOfGlued(parts[0], sep, Join(parts[1..], [sep]));
    }
  }

  /** The parts with `pad` in front of all but the first. */
  function Padded(parts: seq<string>, pad: string): (padded: seq<string>)
    requires parts != []
    ensures |padded| == |parts| && padded[0] == parts[0]
    ensures forall k :: 1 <= k < |parts| ==> padded[k] == pad + parts[k]
  {
    [parts[0]] + seq(|parts| - 1, k requires 0 <= k < |parts| - 1 => pad + parts[k + 1])
  }

  lemma PaddedStep(parts: seq<string>, pad: string)
    requires |parts| > 1
    ensures Padded(parts, pad) == [parts[0]] + ([pad + Padded(parts[1..], pad)[0]] + Padded(parts[1..], pad)[1..])
  {
  }

  /** Joining with a glue that starts with the separator: later parts keep the rest of the glue in front. */
  lemma {:induction false} SplitOfJoin(parts: seq<string>, sep: char, glueTail: string)
    requires parts != []
    requires sep !in glueTail
    requires forall k :: 0 <= k < |parts| ==> sep !in parts[k]
    ensures Split(Join(parts, [sep] + glueTail), sep) == Padded(parts, glueTail)
  {
    SplitOfUnseparated(parts[0], sep);
    if |parts| > 1 {
      var rest := Join(parts[1..], [sep] + glueTail);
      assert parts[0] + ([sep] + glueTail) + rest == parts[0] + [sep] + (glueTail + rest);
      SplitOfGlued(parts[0], sep, glueTail + rest);
      SplitOfJoin(parts[1..], sep, glueTail);
      SplitPrefixed(glueTail, rest, sep);
      PaddedStep(parts, glueTail);
    }
  }

  lemma {:induction false} SplitPrefixed(a: string, s: string, sep: char)
    requires sep !in a
    ensures Split(a + s, sep) == [a + Split(s, sep)[0]] + Split(s, sep)[1..]
  {
    if a == "" {
      assert a + s == s && a + Split(s, sep)[0] == Split(s, sep)[0];
    } else {
      assert (a + s)[1..] == a[1..] + s;
      SplitPrefixed(a[1..], s, sep);
      assert [a[0]] + (a[1..] + Split(s, sep)[0]) == a + Split(s, sep)[0];
    }
  }
}
