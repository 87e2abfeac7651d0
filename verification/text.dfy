/** The string operations of the original that the schedule language is built on. */
module Text {

  /** The parts between the separators, of one character here. */
  function Split(s: string, c: char): (r: seq<string>)
    ensures |r| >= 1
  {
    if s == "" then [""]
    else
      var r := Split(s[1..], c);
      if s[0] == c then [""] + r else [[s[0]] + r[0]] + r[1..]
  }

  /** The parts between separators of two characters. */
  function Split2(s: string, a: char, b: char): (r: seq<string>)
    ensures |r| >= 1
    decreases |s|
  {
    if s == "" then [""]
    else if |s| >= 2 && s[0] == a && s[1] == b then [""] + Split2(s[2..], a, b)
    else
      var r := Split2(s[1..], a, b);
      [[s[0]] + r[0]] + r[1..]
  }

  function Join(parts: seq<string>, sep: string): string {
    if parts == [] then ""
    else if |parts| == 1 then parts[0]
    else parts[0] + sep + Join(parts[1..], sep)
  }

  /** s without two characters, as brackets_removed and parens_removed do. */
  function Without(s: string, a: char, b: char): string {
    if s == "" then "" else (if s[0] == a || s[0] == b then "" else [s[0]]) + Without(s[1..], a, b)
  }

  lemma {:induction false} WithoutAppend(s: string, t: string, a: char, b: char)
    ensures Without(s + t, a, b) == Without(s, a, b) + Without(t, a, b)
  {
    if s == "" {
      assert s + t == t;
    } else {
      assert (s + t)[1..] == s[1..] + t;
      WithoutAppend(s[1..], t, a, b);
    }
  }

  lemma {:induction false} WithoutAbsent(s: string, a: char, b: char)
    requires a !in s && b !in s
    ensures Without(s, a, b) == s
  {
    if s != "" {
      WithoutAbsent(s[1..], a, b);
    }
  }

  lemma {:induction false} SplitAbsent(s: string, c: char)
    requires c !in s
    ensures Split(s, c) == [s]
  {
    if s != "" {
      SplitAbsent(s[1..], c);
      assert [s[0]] + s[1..] == s;
    }
  }

  lemma {:induction false} SplitAt(s: string, c: char, t: string)
    requires c !in s
    ensures Split(s + [c] + t, c) == [s] + Split(t, c)
  {
    var w := s + [c] + t;
    if s == "" {
      assert w[0] == c && w[1..] == t;
    } else {
      assert w[0] == s[0] && w[1..] == s[1..] + [c] + t;
      SplitAt(s[1..], c, t);
      assert [s[0]] + s[1..] == s;
      assert ([s[1..]] + Split(t, c))[1..] == Split(t, c);
    }
  }

  /** Splitting undoes joining when no part holds the separator. */
  lemma {:induction false} SplitJoin(parts: seq<string>, c: char)
    requires parts != [] && forall p | p in parts :: c !in p
    ensures Split(Join(parts, [c]), c) == parts
  {
    if |parts| == 1 {
      SplitAbsent(parts[0], c);
    } else {
      SplitJoin(parts[1..], c);
      SplitAt(parts[0], c, Join(parts[1..], [c]));
    }
  }

  /** No "ab" in s. */
  ghost predicate NoPair(s: string, a: char, b: char) {
    forall i | 0 <= i < |s| - 1 :: !(s[i] == a && s[i + 1] == b)
  }

  lemma NoPairTail(s: string, a: char, b: char)
    requires s != "" && NoPair(s, a, b)
    ensures NoPair(s[1..], a, b)
  {
    var t := s[1..];
    forall i | 0 <= i < |t| - 1
      ensures !(t[i] == a && t[i + 1] == b)
    {
      assert t[i] == s[i + 1] && t[i + 1] == s[i + 1 + 1];
    }
  }

  lemma {:induction false} Split2Absent(s: string, a: char, b: char)
    requires NoPair(s, a, b)
    ensures Split2(s, a, b) == [s]
  {
    if s != "" {
      NoPairTail(s, a, b);
      Split2Absent(s[1..], a, b);
      assert [s[0]] + s[1..] == s;
    }
  }

  lemma {:induction false} Split2At(s: string, a: char, b: char, t: string)
    requires a != b && NoPair(s, a, b)
    ensures Split2(s + [a, b] + t, a, b) == [s] + Split2(t, a, b)
  {
    var w := s + [a, b] + t;
    if s == "" {
      assert w[0] == a && w[1] == b && w[2..] == t;
    } else {
      assert w[0] == s[0] && w[1..] == s[1..] + [a, b] + t;
      NoPairTail(s, a, b);
      if |s| >= 2 {
        assert w[1] == s[1];
      }
      Split2At(s[1..], a, b, t);
      assert [s[0]] + s[1..] == s;
      assert ([s[1..]] + Split2(t, a, b))[1..] == Split2(t, a, b);
    }
  }

  /** And joining undoes splitting. */
  lemma {:induction false} JoinSplit(s: string, c: char)
    ensures Join(Split(s, c), [c]) == s
    ensures forall p | p in Split(s, c) :: c !in p
  {
    if s != "" {
      JoinSplit(s[1..], c);
      var r := Split(s[1..], c);
      if s[0] == c {
        assert ([""] + r)[1..] == r;
        assert Join([""] + r, [c]) == "" + [c] + Join(r, [c]);
      } else {
        JoinFirst(s[0], r, [c]);
      }
    }
  }

  lemma JoinFirst(ch: char, parts: seq<string>, sep: string)
    requires parts != []
    ensures Join([[ch] + parts[0]] + parts[1..], sep) == [ch] + Join(parts, sep)
  {
    var more := [[ch] + parts[0]] + parts[1..];
    assert more[1..] == parts[1..];
    if |parts| > 1 {
      assert ([ch] + parts[0]) + sep + Join(parts[1..], sep) == [ch] + (parts[0] + sep + Join(parts[1..], sep));
    }
  }

  lemma {:induction false} JoinSplit2(s: string, a: char, b: char)
    requires a != b
    ensures Join(Split2(s, a, b), [a, b]) == s
    ensures forall p | p in Split2(s, a, b) :: NoPair(p, a, b)
    decreases |s|
  {
    if s == "" {
    } else if |s| >= 2 && s[0] == a && s[1] == b {
      var r := Split2(s[2..], a, b);
      JoinSplit2(s[2..], a, b);
      assert ([""] + r)[1..] == r;
      assert Join([""] + r, [a, b]) == "" + [a, b] + Join(r, [a, b]);
      assert s == [a, b] + s[2..];
    } else {
      var r := Split2(s[1..], a, b);
      JoinSplit2(s[1..], a, b);
      JoinFirst(s[0], r, [a, b]);
      FirstPartStarts(s[1..], a, b);
      var p := [s[0]] + r[0];
      assert NoPair(p, a, b) by {
        forall i | 0 <= i < |p| - 1
          ensures !(p[i] == a && p[i + 1] == b)
        {
          assert r[0] in r;
          if i > 0 {
            assert p[i] == r[0][i - 1] && p[i + 1] == r[0][i - 1 + 1];
          }
        }
      }
    }
  }

  /** The first part is the start of the text. */
  lemma {:induction false} FirstPartStarts(s: string, a: char, b: char)
    ensures |Split2(s, a, b)[0]| > 0 ==> s != "" && Split2(s, a, b)[0][0] == s[0]
  {}

  lemma {:induction false} Split2Join(parts: seq<string>, a: char, b: char)
    requires a != b && parts != [] && forall p | p in parts :: NoPair(p, a, b)
    ensures Split2(Join(parts, [a, b]), a, b) == parts
  {
    if |parts| == 1 {
      Split2Absent(parts[0], a, b);
    } else {
      Split2Join(parts[1..], a, b);
      Split2At(parts[0], a, b, Join(parts[1..], [a, b]));
    }
  }

  /** The text cut at every separator. */
  ghost predicate Cut(text: string, parts: seq<string>, sep: char) {
    parts != [] && text == Join(parts, [sep]) && forall p | p in parts :: sep !in p
  }

  lemma CutExact(text: string, parts: seq<string>, sep: char)
    ensures Cut(text, parts, sep) <==> parts == Split(text, sep)
  {
    JoinSplit(text, sep);
    if Cut(text, parts, sep) {
      SplitJoin(parts, sep);
    }
  }
}
