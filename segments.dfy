/**
 * Splitting a string on a one-character separator and joining segments back,
 * with the behaviour of Go's strings.Split and strings.Join: splitting the empty
 * string gives one empty segment, and a separator at either end gives an empty
 * segment there.
 */
module Segments {

  /** True when no character of `s` is the separator `d`. */
  predicate NoSeparator(s: string, d: char)
  {
    forall i :: 0 <= i < |s| ==> s[i] != d
  }

  /** The segments of `s` between occurrences of `d`, left to right. */
  function Split(s: string, d: char): (r: seq<string>)
    ensures |r| >= 1
    ensures forall i :: 0 <= i < |r| ==> NoSeparator(r[i], d)
    ensures NoSeparator(s, d) ==> r == [s]
    decreases |s|
  {
    if |s| == 0 then [""]
    else
      var rest := Split(s[1..], d);
      assert NoSeparator(s, d) ==> NoSeparator(s[1..], d) && s == [s[0]] + s[1..];
      if s[0] == d then [""] + rest
      else [[s[0]] + rest[0]] + rest[1..]
  }

  /** The segments written out in order with `d` between neighbours. */
  function Join(segs: seq<string>, d: char): string
  {
    if |segs| == 0 then ""
    else if |segs| == 1 then segs[0]
    else segs[0] + [d] + Join(segs[1..], d)
  }

  /** Joining a segment in front of others puts it and a separator in front of their join. */
  lemma JoinCons(x: string, rest: seq<string>, d: char)
    requires |rest| >= 1
    ensures Join([x] + rest, d) == x + [d] + Join(rest, d)
  {
    assert ([x] + rest)[1..] == rest;
  }

  /** Joining never loses a character: a separator-free prefix stays a prefix. */
  lemma {:induction false} JoinConsHead(c: string, segs: seq<string>, d: char)
    requires |segs| >= 1
    ensures Join([c + segs[0]] + segs[1..], d) == c + Join(segs, d)
  {
    var t := [c + segs[0]] + segs[1..];
    assert t[1..] == segs[1..];
  }

  /** Splitting and then joining gives back the original string. */
  lemma {:induction false} JoinSplit(s: string, d: char)
    ensures Join(Split(s, d), d) == s
    decreases |s|
  {
    if |s| > 0 {
      var rest := Split(s[1..], d);
      JoinSplit(s[1..], d);
      if s[0] == d {
        var t := [""] + rest;
        assert t[1..] == rest;
        assert s == [d] + s[1..];
      } else {
        JoinConsHead([s[0]], rest, d);
        assert s == [s[0]] + s[1..];
      }
    }
  }

  /** Splitting `w + t`, where `w` holds no separator, extends the first segment of `t` by `w`. */
  lemma {:induction false} SplitSeparatorFreePrefix(w: string, t: string, d: char)
    requires NoSeparator(w, d)
    ensures Split(w + t, d) == [w + Split(t, d)[0]] + Split(t, d)[1..]
    decreases |w|
  {
    if |w| > 0 {
      assert (w + t)[1..] == w[1..] + t;
      SplitSeparatorFreePrefix(w[1..], t, d);
      assert [w[0]] + (w[1..] + Split(t, d)[0]) == w + Split(t, d)[0];
    } else {
      var r := Split(t, d);
      assert w + t == t && w + r[0] == r[0];
      assert [r[0]] + r[1..] == r;
    }
  }

  /** Joining separator-free segments and splitting again gives back the segments. */
  lemma {:induction false} SplitJoin(segs: seq<string>, d: char)
    requires |segs| >= 1
    requires forall i :: 0 <= i < |segs| ==> NoSeparator(segs[i], d)
    ensures Split(Join(segs, d), d) == segs
  {
    if |segs| > 1 {
      var tail := Join(segs[1..], d);
      SplitJoin(segs[1..], d);
      assert segs[0] + [d] + tail == segs[0] + ([d] + tail);
      SplitSeparatorFreePrefix(segs[0], [d] + tail, d);
      assert ([d] + tail)[1..] == tail;
      assert Split([d] + tail, d) == [""] + segs[1..];
      assert segs[0] + "" == segs[0];
    }
  }

  /** Joining two non-empty runs of segments puts a separator between their joins. */
  lemma {:induction false} JoinAppend(a: seq<string>, b: seq<string>, d: char)
    requires |a| >= 1 && |b| >= 1
    ensures Join(a + b, d) == Join(a, d) + [d] + Join(b, d)
  {
    if |a| == 1 {
      JoinCons(a[0], b, d);
      assert a + b == [a[0]] + b;
    } else {
      JoinAppend(a[1..], b, d);
      assert a + b == [a[0]] + (a[1..] + b);
      JoinCons(a[0], a[1..] + b, d);
      JoinCons(a[0], a[1..], d);
      assert a == [a[0]] + a[1..];
    }
  }
}
