/**
  The e-mail validator of the user schema, the regular expression
      ^\w+([\.-]?\w+)*@\w+([\.-]?\w+)*(\.\w{2,3})+$
  written as a grammar (`EmailRegex`, one predicate per part of the
  pattern) and proved equal to a flat, character-level description
  (`EmailShape`): one '@', both sides made of word characters separated by
  single '.' or '-', and a last domain label of two or three word characters
  after a '.'.
 */
module EmailFormat {

  /** `\w` without the `u` flag: [A-Za-z0-9_]. */
  predicate IsWordChar(c: char) {
    'a' <= c <= 'z' || 'A' <= c <= 'Z' || '0' <= c <= '9' || c == '_'
  }

  /** `[\.-]` */
  predicate IsSeparator(c: char) {
    c == '.' || c == '-'
  }

  // ----- the pattern, part by part -----

  /** `([\.-]?\w+)*` */
  predicate Groups(t: string)
    decreases |t|
  {
    || t == []
    || (IsWordChar(t[0]) && Groups(t[1..]))
    || (|t| >= 2 && IsSeparator(t[0]) && IsWordChar(t[1]) && Groups(t[2..]))
  }

  /** `\w+([\.-]?\w+)*` */
  predicate Runs(s: string) {
    |s| > 0 && IsWordChar(s[0]) && Groups(s[1..])
  }

  /** `(\.\w{2,3})+`, up to the end of the input. */
  predicate TldGroups(t: string)
    decreases |t|
  {
    && |t| >= 3 && t[0] == '.' && IsWordChar(t[1]) && IsWordChar(t[2])
    && (|| t[3..] == []
        || TldGroups(t[3..])
        || (IsWordChar(t[3]) && (t[4..] == [] || TldGroups(t[4..]))))
  }

  /** `\w+([\.-]?\w+)*(\.\w{2,3})+` */
  predicate DomainRegex(d: string) {
    exists k | 1 <= k < |d| :: Runs(d[..k]) && TldGroups(d[k..])
  }

  /** The whole pattern, anchored at both ends. */
  predicate EmailRegex(e: string) {
    exists a | 0 <= a < |e| :: e[a] == '@' && Runs(e[..a]) && DomainRegex(e[a + 1..])
  }

  // ----- the same language, described character by character -----

  /** Every character is a word character or a separator, and every
      separator has a word character on both sides. */
  predicate Dotted(s: string) {
    && |s| > 0
    && (forall i :: 0 <= i < |s| ==> IsWordChar(s[i]) || IsSeparator(s[i]))
    && (forall i :: 0 <= i < |s| && IsSeparator(s[i]) ==>
          0 < i < |s| - 1 && IsWordChar(s[i - 1]) && IsWordChar(s[i + 1]))
  }

  /** The text after the last separator has two or three characters and the
      separator before it is a '.'. */
  predicate TldOk(d: string) {
    && |d| >= 3
    && IsWordChar(d[|d| - 1]) && IsWordChar(d[|d| - 2])
    && (d[|d| - 3] == '.' || (|d| >= 4 && IsWordChar(d[|d| - 3]) && d[|d| - 4] == '.'))
  }

  predicate EmailShape(e: string) {
    exists a | 0 <= a < |e| ::
      e[a] == '@' && Dotted(e[..a]) && Dotted(e[a + 1..]) && TldOk(e[a + 1..])
  }

  // ----- proofs -----

  /** Every separator is directly followed by a word character. */
  predicate SepsFollowed(t: string) {
    && (forall i :: 0 <= i < |t| ==> IsWordChar(t[i]) || IsSeparator(t[i]))
    && (forall i :: 0 <= i < |t| && IsSeparator(t[i]) ==> i + 1 < |t| && IsWordChar(t[i + 1]))
  }

  lemma {:induction false} GroupsIff(t: string)
    ensures Groups(t) <==> SepsFollowed(t)
    decreases |t|
  {
    if t == [] {
    } else if IsWordChar(t[0]) {
      GroupsIff(t[1..]);
      if SepsFollowed(t[1..]) {
        forall i | 0 <= i < |t| && IsSeparator(t[i])
          ensures i + 1 < |t| && IsWordChar(t[i + 1])
        {
          assert t[1..][i - 1] == t[i];
        }
      }
      if SepsFollowed(t) {
        forall i | 0 <= i < |t[1..]|
          ensures IsWordChar(t[1..][i]) || IsSeparator(t[1..][i])
          ensures IsSeparator(t[1..][i]) ==> i + 1 < |t[1..]| && IsWordChar(t[1..][i + 1])
        {
          assert t[1..][i] == t[i + 1];
        }
      }
    } else if IsSeparator(t[0]) {
      if |t| >= 2 && IsWordChar(t[1]) {
        GroupsIff(t[2..]);
        if SepsFollowed(t[2..]) {
          forall i | 0 <= i < |t| && IsSeparator(t[i])
            ensures i + 1 < |t| && IsWordChar(t[i + 1])
          {
            if i >= 2 {
              assert t[2..][i - 2] == t[i];
            }
          }
        }
        if SepsFollowed(t) {
          forall i | 0 <= i < |t[2..]|
            ensures IsWordChar(t[2..][i]) || IsSeparator(t[2..][i])
            ensures IsSeparator(t[2..][i]) ==> i + 1 < |t[2..]| && IsWordChar(t[2..][i + 1])
          {
            assert t[2..][i] == t[i + 2];
          }
        }
      } else {
        assert !SepsFollowed(t) by {
          assert IsSeparator(t[0]);
        }
      }
    } else {
      assert !SepsFollowed(t) by {
        assert !(IsWordChar(t[0]) || IsSeparator(t[0]));
      }
    }
  }

  /** The pattern's `\w+([\.-]?\w+)*` is exactly `Dotted`. */
  lemma RunsIff(s: string)
    ensures Runs(s) <==> Dotted(s)
  {
    if |s| > 0 {
      var t := s[1..];
      GroupsIff(t);
      if Runs(s) {
        forall i | 0 <= i < |s| && IsSeparator(s[i])
          ensures 0 < i < |s| - 1 && IsWordChar(s[i - 1]) && IsWordChar(s[i + 1])
        {
          assert t[i - 1] == s[i];
          if i >= 2 {
            assert t[i - 2] == s[i - 1];
          }
        }
        forall i | 0 <= i < |s| ensures IsWordChar(s[i]) || IsSeparator(s[i]) {
          if i > 0 {
            assert t[i - 1] == s[i];
          }
        }
      }
      if Dotted(s) {
        assert IsWordChar(s[0]) by {
          assert !IsSeparator(s[0]);
        }
        forall i | 0 <= i < |t|
          ensures IsWordChar(t[i]) || IsSeparator(t[i])
          ensures IsSeparator(t[i]) ==> i + 1 < |t| && IsWordChar(t[i + 1])
        {
          assert t[i] == s[i + 1];
        }
      }
    }
  }

  /** Joining two `Dotted` texts with one separator gives a `Dotted` text,
      and every `Dotted` text splits that way at each of its separators. */
  lemma DottedJoin(p: string, c: char, q: string)
    requires IsSeparator(c)
    ensures Dotted(p + [c] + q) <==> Dotted(p) && Dotted(q)
  {
    var s := p + [c] + q;
    assert forall i :: 0 <= i < |p| ==> s[i] == p[i];
    assert s[|p|] == c;
    assert forall i :: 0 <= i < |q| ==> s[|p| + 1 + i] == q[i];
    if Dotted(s) {
      assert Dotted(p) by {
        assert |p| > 0 && IsWordChar(s[|p| - 1]);
        forall i | 0 <= i < |p| && IsSeparator(p[i])
          ensures 0 < i < |p| - 1 && IsWordChar(p[i - 1]) && IsWordChar(p[i + 1])
        {
          assert s[i] == p[i];
          assert s[i + 1] == c || s[i + 1] == p[i + 1];
        }
      }
      assert Dotted(q) by {
        assert |q| > 0 && IsWordChar(s[|p| + 1]);
        forall i | 0 <= i < |q| && IsSeparator(q[i])
          ensures 0 < i < |q| - 1 && IsWordChar(q[i - 1]) && IsWordChar(q[i + 1])
        {
          assert s[|p| + 1 + i] == q[i];
          assert s[|p| + i] == q[i - 1];
          assert s[|p| + 2 + i] == q[i + 1];
        }
      }
    }
    if Dotted(p) && Dotted(q) {
      assert !IsSeparator(p[|p| - 1]) && !IsSeparator(q[0]);
      forall i | 0 <= i < |s| ensures IsWordChar(s[i]) || IsSeparator(s[i]) {
        if i > |p| {
          assert s[i] == q[i - |p| - 1];
        }
      }
      forall i | 0 <= i < |s| && IsSeparator(s[i])
        ensures 0 < i < |s| - 1 && IsWordChar(s[i - 1]) && IsWordChar(s[i + 1])
      {
        if i < |p| {
          assert s[i] == p[i];
        } else if i > |p| {
          assert s[i] == q[i - |p| - 1];
        }
      }
    }
  }

  /** A run of word characters is `Dotted`. */
  lemma WordsDotted(w: string)
    requires |w| > 0 && forall i :: 0 <= i < |w| ==> IsWordChar(w[i])
    ensures Dotted(w)
  {
    forall i | 0 <= i < |w| ensures !IsSeparator(w[i]) {
      assert IsWordChar(w[i]);
    }
  }

  /** A final '.' followed by two or three word characters satisfies `TldOk`. */
  lemma TldOkOf(p: string, w: string)
    requires 2 <= |w| <= 3 && forall i :: 0 <= i < |w| ==> IsWordChar(w[i])
    ensures TldOk(p + ['.'] + w)
  {
    var d := p + ['.'] + w;
    assert d[|d| - 1] == w[|w| - 1] && d[|d| - 2] == w[|w| - 2];
    assert d[|d| - |w| - 1] == '.';
    if |w| == 3 {
      assert d[|d| - 3] == w[0];
    }
  }

  /** The first `\.\w{2,3}` group of a `TldGroups` text: its length with the dot. */
  function FirstTldLength(t: string): (n: nat)
    requires TldGroups(t)
    ensures n == 3 || n == 4
    ensures n <= |t| && t[0] == '.'
    ensures forall i :: 1 <= i < n ==> IsWordChar(t[i])
    ensures t[n..] == [] || TldGroups(t[n..])
  {
    if t[3..] == [] || TldGroups(t[3..]) then 3 else 4
  }

  lemma {:induction false} TldGroupsExtend(p: string, t: string)
    requires Dotted(p) && TldGroups(t)
    ensures Dotted(p + t) && TldOk(p + t)
    decreases |t|
  {
    var n := FirstTldLength(t);
    var w := t[1..n];
    assert forall i :: 0 <= i < |w| ==> IsWordChar(w[i]) by {
      assert forall i :: 0 <= i < |w| ==> w[i] == t[i + 1];
    }
    WordsDotted(w);
    DottedJoin(p, '.', w);
    var p' := p + ['.'] + w;
    assert t == ['.'] + w + t[n..];
    assert p + t == p' + t[n..];
    if t[n..] == [] {
      TldOkOf(p, w);
      assert p + t == p';
    } else {
      TldGroupsExtend(p', t[n..]);
    }
  }

  lemma DomainRegexSound(d: string)
    requires DomainRegex(d)
    ensures Dotted(d) && TldOk(d)
  {
    var k :| 1 <= k < |d| && Runs(d[..k]) && TldGroups(d[k..]);
    RunsIff(d[..k]);
    TldGroupsExtend(d[..k], d[k..]);
    assert d[..k] + d[k..] == d;
  }

  lemma DomainRegexComplete(d: string)
    requires Dotted(d) && TldOk(d)
    ensures DomainRegex(d)
  {
    var k := if d[|d| - 3] == '.' then |d| - 3 else |d| - 4;
    var t := d[k..];
    assert d == d[..k] + [d[k]] + d[k + 1..];
    DottedJoin(d[..k], d[k], d[k + 1..]);
    RunsIff(d[..k]);
    assert t[0] == '.' && IsWordChar(t[1]) && IsWordChar(t[2]);
    if k == |d| - 4 {
      assert IsWordChar(t[3]) && t[4..] == [];
    } else {
      assert t[3..] == [];
    }
    assert TldGroups(t);
  }

  lemma DomainIff(d: string)
    ensures DomainRegex(d) <==> Dotted(d) && TldOk(d)
  {
    if DomainRegex(d) {
      DomainRegexSound(d);
    }
    if Dotted(d) && TldOk(d) {
      DomainRegexComplete(d);
    }
  }

  /** The grammar and the flat description accept the same addresses. */
  lemma EmailRegexIff(e: string)
    ensures EmailRegex(e) <==> EmailShape(e)
  {
    forall a | 0 <= a < |e| && e[a] == '@'
      ensures Runs(e[..a]) <==> Dotted(e[..a])
      ensures DomainRegex(e[a + 1..]) <==> Dotted(e[a + 1..]) && TldOk(e[a + 1..])
    {
      RunsIff(e[..a]);
      DomainIff(e[a + 1..]);
    }
  }

  /** The position of the '@' of an accepted address, and the flat
      description of the two sides of it. */
  lemma AtOf(e: string) returns (a: nat)
    requires EmailRegex(e)
    ensures a < |e| && e[a] == '@'
    ensures Dotted(e[..a]) && Dotted(e[a + 1..]) && TldOk(e[a + 1..])
  {
    EmailRegexIff(e);
    a :| 0 <= a < |e| && e[a] == '@' && Dotted(e[..a]) && Dotted(e[a + 1..]) && TldOk(e[a + 1..]);
  }

  /** The '@' of an accepted address is its only one. */
  lemma SingleAt(e: string, a: nat)
    requires a < |e| && e[a] == '@' && Dotted(e[..a]) && Dotted(e[a + 1..])
    ensures forall i :: 0 <= i < |e| && e[i] == '@' ==> i == a
  {
  }

  /** Separators of an accepted address have word characters on both sides. */
  lemma SeparatorsFlanked(e: string, a: nat)
    requires a < |e| && e[a] == '@' && Dotted(e[..a]) && Dotted(e[a + 1..])
    ensures forall i :: 0 <= i < |e| && IsSeparator(e[i]) ==>
              0 < i < |e| - 1 && IsWordChar(e[i - 1]) && IsWordChar(e[i + 1])
  {
    var l, d := e[..a], e[a + 1..];
    forall i | 0 <= i < |e| && IsSeparator(e[i])
      ensures 0 < i < |e| - 1 && IsWordChar(e[i - 1]) && IsWordChar(e[i + 1])
    {
      if i < a {
        assert l[i] == e[i];
        assert l[i - 1] == e[i - 1] && l[i + 1] == e[i + 1];
      } else {
        assert i != a;
        assert d[i - a - 1] == e[i];
        assert d[i - a - 2] == e[i - 1] && d[i - a] == e[i + 1];
      }
    }
  }

  /** An accepted address ends in '.' and two or three word characters. */
  lemma TopLevelLabel(e: string, a: nat) returns (j: nat)
    requires a < |e| && TldOk(e[a + 1..])
    ensures j < |e| - 2 && e[j] == '.' && 2 <= |e| - j - 1 <= 3
    ensures forall k :: j < k < |e| ==> IsWordChar(e[k])
  {
    var d := e[a + 1..];
    j := if d[|d| - 3] == '.' then |e| - 3 else |e| - 4;
    assert e[j] == d[j - a - 1];
    forall k | j < k < |e| ensures IsWordChar(e[k]) {
      assert e[k] == d[k - a - 1];
    }
  }

  /** What an accepted address looks like: exactly one '@', a word character
      first and last, a word character on both sides of every '.' and '-',
      and two or three word characters after the last '.'. */
  lemma AcceptedEmailShape(e: string)
    requires EmailRegex(e)
    ensures exists a :: 0 <= a < |e| && e[a] == '@'
    ensures forall i, j :: 0 <= i < |e| && 0 <= j < |e| && e[i] == '@' && e[j] == '@' ==> i == j
    ensures IsWordChar(e[0]) && IsWordChar(e[|e| - 1])
    ensures forall i :: 0 <= i < |e| && IsSeparator(e[i]) ==>
              0 < i < |e| - 1 && IsWordChar(e[i - 1]) && IsWordChar(e[i + 1])
    ensures exists j :: 0 <= j < |e| - 2 && e[j] == '.' && 2 <= |e| - j - 1 <= 3 &&
              forall k :: j < k < |e| ==> IsWordChar(e[k])
  {
    var a := AtOf(e);
    SingleAt(e, a);
    SeparatorsFlanked(e, a);
    var j := TopLevelLabel(e, a);
    assert IsWordChar(e[0]) by {
      assert e[..a][0] == e[0] && !IsSeparator(e[..a][0]);
    }
  }
}
