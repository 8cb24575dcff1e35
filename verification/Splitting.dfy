/** What splitting a sequence at a separator means. */
module Splitting {
  import opened Text

  lemma SplitCons<T>(d: T, s: seq<T>, c: T)
    ensures Split([d] + s, c) ==
            if d == c then [[]] + Split(s, c) else [[d] + Split(s, c)[0]] + Split(s, c)[1..]
  {
    assert ([d] + s)[1..] == s;
  }

  lemma HeadOfJoin<T>(d: T, p: seq<seq<T>>, q: seq<seq<T>>)
    requires p != []
    ensures [[d] + (p + q)[0]] + (p + q)[1..] == ([[d] + p[0]] + p[1..]) + q
  {
  }

  lemma ConsJoin<T>(x: T, p: seq<T>, q: seq<T>)
    ensures [x] + (p + q) == ([x] + p) + q
  {
  }

  /** Two texts joined by the separator split into the pieces of both. */
  lemma {:induction false} SplitJoin<T>(a: seq<T>, b: seq<T>, c: T)
    ensures Split(a + [c] + b, c) == Split(a, c) + Split(b, c)
  {
    if a == [] {
      SplitCons(c, b, c);
      assert a + [c] + b == [c] + b;
    } else {
      var d, t := a[0], a[1..];
      SplitJoin(t, b, c);
      assert a == [d] + t;
      assert a + [c] + b == [d] + (t + [c] + b);
      SplitLonger(d, t, b, c);
    }
  }

  lemma SplitLonger<T>(d: T, t: seq<T>, b: seq<T>, c: T)
    requires Split(t + [c] + b, c) == Split(t, c) + Split(b, c)
    ensures Split([d] + (t + [c] + b), c) == Split([d] + t, c) + Split(b, c)
  {
    SplitCons(d, t, c);
    SplitCons(d, t + [c] + b, c);
    var p, q := Split(t, c), Split(b, c);
    if d == c {
      ConsJoin([], p, q);
    } else {
      HeadOfJoin(d, p, q);
    }
  }

  lemma {:induction false} SplitPlain<T>(s: seq<T>, c: T)
    requires c !in s
    ensures Split(s, c) == [s]
  {
    if s != [] {
      SplitPlain(s[1..], c);
      assert s == [s[0]] + s[1..];
    }
  }

  /** The pieces, separated again. */
  function Rejoin<T>(parts: seq<seq<T>>, c: T): seq<T>
    requires parts != []
  {
    if |parts| == 1 then parts[0] else parts[0] + [c] + Rejoin(parts[1..], c)
  }

  lemma RejoinFirst<T>(d: T, parts: seq<seq<T>>, c: T)
    requires parts != []
    ensures Rejoin([[d] + parts[0]] + parts[1..], c) == [d] + Rejoin(parts, c)
  {
    var longer := [[d] + parts[0]] + parts[1..];
    assert longer[1..] == parts[1..];
    if |parts| > 1 {
      assert ([d] + parts[0]) + [c] + Rejoin(parts[1..], c)
          == [d] + (parts[0] + [c] + Rejoin(parts[1..], c));
    }
  }

  /** The pieces hold no separator, and separated by it they make the whole. */
  lemma {:induction false} SplitMeans<T>(s: seq<T>, c: T)
    ensures var parts := Split(s, c);
            && (forall i :: 0 <= i < |parts| ==> c !in parts[i])
            && s == Rejoin(parts, c)
  {
    if s != [] {
      SplitMeans(s[1..], c);
      var d, t := s[0], s[1..];
      var rest := Split(t, c);
      assert s == [d] + t;
      SplitCons(d, t, c);
      if d == c {
        assert ([[]] + rest)[1..] == rest;
      } else {
        RejoinFirst(d, rest, c);
        LongerHolds(d, rest, c);
      }
    }
  }

  lemma LongerHolds<T>(d: T, rest: seq<seq<T>>, c: T)
    requires d != c && rest != [] && forall i :: 0 <= i < |rest| ==> c !in rest[i]
    ensures var longer := [[d] + rest[0]] + rest[1..];
            forall i :: 0 <= i < |longer| ==> c !in longer[i]
  {
  }

  lemma SplitAtFirst<T>(front: seq<T>, back: seq<T>, c: T)
    requires c !in front
    ensures Split(front + [c] + back, c) == [front] + Split(back, c)
  {
    SplitJoin(front, back, c);
    SplitPlain(front, c);
  }
}
