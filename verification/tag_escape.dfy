/** Tag values with escaped punctuation (c7n/filters/offhours.py, unescape_tag_restrictions). */
module TagEscape {

  const RESTRICTIONS := ['(', ')', '[', ']', ',', ';', '=', '/', '-']

  /** The escape of each: u and the code of the character in hexadecimal. */
  const ESCAPES := ["u28", "u29", "u5b", "u5d", "u2c", "u3b", "u3d", "u2f", "u2d"]

  /** Every occurrence of a pattern of three characters replaced by one, from the left. */
  function Replace(s: string, pattern: string, c: char): string
    requires |pattern| == 3
    decreases |s|
  {
    if |s| < 3 then s
    else if s[..3] == pattern then [c] + Replace(s[3..], pattern, c)
    else [s[0]] + Replace(s[1..], pattern, c)
  }

  /** The loop of the original: one replace pass per restricted character. */
  method Unescape(value: string) returns (r: string)
    ensures r == Decode(value, 9)
  {
    r := value;
    DecodeNone(value);
    for i := 0 to 9
      invariant r == Decode(value, i)
    {
      OnePass(value, i);
      r := Replace(r, ESCAPES[i], RESTRICTIONS[i]);
    }
  }

  /** Which of the first n escapes s starts with; n if none. */
  function Match(s: string, n: nat): (i: nat)
    requires n <= 9
    ensures i <= n
  {
    if n == 0 then 0
    else
      var i := Match(s, n - 1);
      if i < n - 1 then i
      else if |s| >= 3 && s[..3] == ESCAPES[n - 1] then n - 1 else n
  }

  /** Decode the first n escapes in one pass from left to right. */
  function Decode(s: string, n: nat): string
    requires n <= 9
    decreases |s|
  {
    if |s| < 3 then s
    else
      var i := Match(s, n);
      if i < n then [RESTRICTIONS[i]] + Decode(s[3..], n) else [s[0]] + Decode(s[1..], n)
  }

  lemma EscapeShape(i: nat)
    requires i < 9
    ensures |ESCAPES[i]| == 3 && ESCAPES[i][0] == 'u' && ESCAPES[i][1] != 'u' && ESCAPES[i][2] != 'u'
    ensures forall c | c in ESCAPES[i] :: c !in RESTRICTIONS
    ensures forall j | 0 <= j < 9 && j != i :: ESCAPES[i] != ESCAPES[j]
  {
    assert ESCAPES[i] in ESCAPES;
  }

  const HEX := "0123456789abcdef"

  /** The restricted characters, and the escape of each from its code. */
  lemma EscapeIsCode(i: nat)
    requires i < 9
    ensures RESTRICTIONS == "()[],;=/-"
    ensures ESCAPES[i] == ['u', HEX[RESTRICTIONS[i] as int / 16], HEX[RESTRICTIONS[i] as int % 16]]
  {
    assert RESTRICTIONS[i] in RESTRICTIONS;
  }

  lemma {:induction false} MatchMeans(s: string, n: nat)
    requires n <= 9
    ensures Match(s, n) < n ==> |s| >= 3 && s[..3] == ESCAPES[Match(s, n)]
    ensures forall j | 0 <= j < n && |s| >= 3 && s[..3] == ESCAPES[j] :: Match(s, n) == j
  {
    if n > 0 {
      MatchMeans(s, n - 1);
      EscapeShape(n - 1);
    }
  }

  lemma {:induction false} DecodeNone(s: string)
    ensures Decode(s, 0) == s
    decreases |s|
  {
    if |s| >= 3 {
      DecodeNone(s[1..]);
    }
  }

  /** A character that starts no escape is copied. */
  lemma DecodeCopies(s: string, n: nat)
    requires n <= 9 && s != "" && s[0] != 'u'
    ensures Decode(s, n) == [s[0]] + Decode(s[1..], n)
  {
    MatchMeans(s, n);
    if |s| >= 3 && Match(s, n) < n {
      EscapeShape(Match(s, n));
    }
  }

  /** An output character that is no restricted one was copied. */
  lemma DecodeCopied(s: string, n: nat)
    requires n <= 9 && Decode(s, n) != "" && Decode(s, n)[0] !in RESTRICTIONS
    ensures s != "" && s[0] == Decode(s, n)[0] && Decode(s, n)[1..] == Decode(s[1..], n)
  {
  }

  /** Replacing never looks behind a character that does not start the pattern. */
  lemma ReplaceCopies(s: string, pattern: string, c: char)
    requires |pattern| == 3 && s != "" && (|s| >= 3 ==> s[..3] != pattern)
    ensures Replace(s, pattern, c) == [s[0]] + Replace(s[1..], pattern, c)
  {
  }

  /** One more replace pass is one more escape understood: no pass creates or destroys an
      escape sequence of another. */
  lemma {:induction false} OnePass(s: string, n: nat)
    requires n < 9
    ensures Replace(Decode(s, n), ESCAPES[n], RESTRICTIONS[n]) == Decode(s, n + 1)
    decreases |s|
  {
    EscapeShape(n);
    MatchMeans(s, n);
    MatchMeans(s, n + 1);
    var d := Decode(s, n);
    if |s| >= 3 {
      if Match(s, n) < n {
        OnePass(s[3..], n);
        assert d[0] == RESTRICTIONS[Match(s, n)];
        assert d[0] != 'u';
        ReplaceCopies(d, ESCAPES[n], RESTRICTIONS[n]);
      } else if s[..3] == ESCAPES[n] {
        assert s[0] == ESCAPES[n][0] && s[1] == ESCAPES[n][1] && s[2] == ESCAPES[n][2];
        DecodeCopies(s[1..], n);
        DecodeCopies(s[2..], n);
        assert s[1..][1..] == s[2..] && s[2..][1..] == s[3..];
        assert d == s[..3] + Decode(s[3..], n);
        OnePass(s[3..], n);
      } else {
        OnePass(s[1..], n);
        NotMade(s, n);
        ReplaceCopies(d, ESCAPES[n], RESTRICTIONS[n]);
      }
    }
  }

  /** Decoding the first n escapes does not make the next one appear. */
  lemma NotMade(s: string, n: nat)
    requires n < 9 && |s| >= 3 && Match(s, n) == n && s[..3] != ESCAPES[n]
    ensures |Decode(s, n)| >= 3 ==> Decode(s, n)[..3] != ESCAPES[n]
  {
    var d := Decode(s, n);
    EscapeShape(n);
    assert s[..3] == [s[0], s[1], s[2]];
    assert ESCAPES[n] == [ESCAPES[n][0], ESCAPES[n][1], ESCAPES[n][2]];
    if |d| >= 3 && d[..3] == ESCAPES[n] {
      assert d[0] == ESCAPES[n][0] && d[1] == ESCAPES[n][1] && d[2] == ESCAPES[n][2];
      assert d == [s[0]] + Decode(s[1..], n);
      DecodeCopied(s[1..], n);
      DecodeCopied(s[1..][1..], n);
    }
  }

  // ----- The documented escaping

  function Escape(s: string): string {
    if s == "" then "" else EscapeChar(s[0], 9) + Escape(s[1..])
  }

  function EscapeChar(c: char, n: nat): (r: string)
    requires n <= 9
    ensures (exists i | 0 <= i < n :: RESTRICTIONS[i] == c && r == ESCAPES[i]) || (r == [c] && c !in RESTRICTIONS[..n])
  {
    if n == 0 then [c] else if c == RESTRICTIONS[n - 1] then ESCAPES[n - 1] else EscapeChar(c, n - 1)
  }

  ghost predicate HoldsEscape(s: string) {
    |s| >= 3 && (s[..3] in ESCAPES || HoldsEscape(s[1..]))
  }

  lemma EscapeFirst(s: string)
    requires s != "" && Escape(s) != "" && Escape(s)[0] != 'u'
    ensures s[0] == Escape(s)[0] && s[0] !in RESTRICTIONS && Escape(s)[1..] == Escape(s[1..])
  {
    var e := EscapeChar(s[0], 9);
    if s[0] in RESTRICTIONS {
      var i :| 0 <= i < 9 && e == ESCAPES[i];
      EscapeShape(i);
    }
  }

  lemma {:induction false} EscapeEmpty(s: string)
    ensures Escape(s) == "" <==> s == ""
  {
    if s != "" {
      var e := EscapeChar(s[0], 9);
      if i :| 0 <= i < 9 && e == ESCAPES[i] {
        EscapeShape(i);
      }
    }
  }

  /** A first character that starts no escape is copied. */
  lemma CopiedAt(s: string, e: string, c: char)
    requires e == Escape(s) && e != "" && e[0] == c != 'u'
    ensures s != "" && s[0] == c && e[1..] == Escape(s[1..])
  {
    EscapeEmpty(s);
    EscapeFirst(s);
  }

  /** Escaping does not make an escape sequence appear where there was none. */
  lemma EscapeMakesNone(s: string)
    requires s != "" && s[0] !in RESTRICTIONS && |Escape(s)| >= 3 && Match(Escape(s), 9) < 9
    ensures |s| >= 3 && s[..3] == Escape(s)[..3] && Escape(s)[3..] == Escape(s[3..])
  {
    var e := Escape(s);
    var i := Match(e, 9);
    MatchMeans(e, 9);
    EscapeShape(i);
    EscapeCopies(s);
    assert e[1..] == Escape(s[1..]);
    CopiedAt(s[1..], e[1..], e[1]);
    assert s[1..][1..] == s[2..] && e[1..][1..] == e[2..];
    CopiedAt(s[2..], e[2..], e[2]);
    assert s[2..][1..] == s[3..] && e[2..][1..] == e[3..];
    FirstThree(s, e);
  }

  lemma FirstThree(s: string, e: string)
    requires |s| >= 3 && |e| >= 3 && s[0] == e[0] && s[1] == e[1] && s[2] == e[2]
    ensures s[..3] == e[..3]
  {}

  lemma NoEscapeHere(s: string)
    requires |s| >= 3 && s[0] in RESTRICTIONS
    ensures s[..3] !in ESCAPES
  {
    assert s[..3][0] == s[0];
    forall j | 0 <= j < 9
      ensures ESCAPES[j] != s[..3]
    {
      EscapeShape(j);
    }
  }

  lemma EscapeCopies(s: string)
    requires s != "" && s[0] !in RESTRICTIONS
    ensures Escape(s) == [s[0]] + Escape(s[1..])
  {
    var e := EscapeChar(s[0], 9);
  }

  lemma EscapeStays(s: string)
    requires |s| >= 3 && s[..3] in ESCAPES
    ensures |Escape(s)| >= 3 && Escape(s)[..3] == s[..3] && Match(Escape(s), 9) < 9
  {
    var j :| 0 <= j < 9 && s[..3] == ESCAPES[j];
    EscapeShape(j);
    assert s[..3][0] == s[0] && s[..3][1] == s[1] && s[..3][2] == s[2];
    EscapeCopies(s);
    EscapeCopies(s[1..]);
    EscapeCopies(s[1..][1..]);
    assert Escape(s)[..3] == s[..3];
    MatchMeans(Escape(s), 9);
  }

  lemma {:induction false} DecodeEscape(s: string)
    ensures |Decode(Escape(s), 9)| <= |s|
    ensures if HoldsEscape(s) then |Decode(Escape(s), 9)| < |s| else Decode(Escape(s), 9) == s
    decreases |s|
  {
    if s != "" {
      var e := Escape(s);
      MatchMeans(e, 9);
      if s[0] in RESTRICTIONS {
        var head := EscapeChar(s[0], 9);
        assert RESTRICTIONS[..9] == RESTRICTIONS;
        var i :| 0 <= i < 9 && RESTRICTIONS[i] == s[0] && head == ESCAPES[i];
        EscapeShape(i);
        assert e[..3] == ESCAPES[i] && e[3..] == Escape(s[1..]);
        DecodeEscape(s[1..]);
        if |s| >= 3 {
          NoEscapeHere(s);
        }
      } else if |e| >= 3 && Match(e, 9) < 9 {
        EscapeMakesNone(s);
        DecodeEscape(s[3..]);
        assert s[..3] in ESCAPES;
      } else {
        assert e == [s[0]] + Escape(s[1..]);
        DecodeEscape(s[1..]);
        if |s| >= 3 && s[..3] in ESCAPES {
          EscapeStays(s);
        }
      }
    }
  }

  /** Unescaping undoes the documented escaping exactly for the values that hold no escape
      sequence to begin with. */
  lemma RoundTrip(s: string)
    ensures Decode(Escape(s), 9) == s <==> !HoldsEscape(s)
  {
    DecodeEscape(s);
  }
}
