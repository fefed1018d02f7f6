/**
 * The three rules by which the analysis builders strip a Markdown code fence
 * from the text the language model sends back, before decoding it as JSON:
 * one for the class analysis, one for the roster analysis and one for the
 * student analysis. The lemmas relate the three on the reply shapes that
 * matter: a ```json fence around a JSON body, a bare ``` fence, and a reply
 * without backticks.
 */
module ReplyCleaning {
  import opened Strings

  /** The opening fence the class and roster rules look for. */
  const JsonFence: string := "```json"
  /** The closing fence, and the bare opening fence. */
  const PlainFence: string := "```"

  /**
   * Class analysis: trim; when the result starts with ```json, drop its first
   * seven characters and then every trailing backtick.
   */
  function CleanTurmaReply(text: string): string
  {
    var t := Trim(text);
    if StartsWith(t, JsonFence) then TrimRightChar(t[7..], '`') else t
  }

  /**
   * Roster analysis: trim; when the result starts with ```json, remove every
   * occurrence of ```json anywhere in it and then every trailing backtick.
   */
  function CleanRosterReply(text: string): string
  {
    var t := Trim(text);
    if StartsWith(t, JsonFence) then TrimRightChar(ReplaceAll(t, JsonFence, ""), '`') else t
  }

  /**
   * Student analysis: remove every ```json, then every ``` (in that order,
   * as `str_replace` with an array of needles does), then trim.
   */
  function CleanAlunoReply(text: string): string
  {
    Trim(ReplaceAll(ReplaceAll(text, JsonFence, ""), PlainFence, ""))
  }

  /** No backtick occurs in `s`. */
  predicate NoBacktick(s: string) {
    forall k :: 0 <= k < |s| ==> s[k] != '`'
  }

  /** A reply made of whitespace `a`, an opening fence, a body `j`, a closing ``` and whitespace `b`. */
  function Fenced(a: string, open: string, j: string, b: string): string {
    a + (open + (j + (PlainFence + b)))
  }

  lemma SpaceHasNoBacktick(a: string)
    requires AllPhpSpace(a)
    ensures NoBacktick(a) && '`' !in a
  {
    assert forall k :: 0 <= k < |a| ==> a[k] != '`' by {
      forall k | 0 <= k < |a| ensures a[k] != '`' {
        assert IsPhpSpace(a[k]);
      }
    }
  }

  /** A string without backticks ends in no backtick and keeps what `rtrim(.., '`')` removes. */
  lemma TrimBackticksOfBody(j: string)
    requires NoBacktick(j)
    ensures TrimRightChar(j + PlainFence, '`') == j
  {
    TrimRightCharSuffix(j, PlainFence, '`');
    if |j| > 0 {
      assert j[|j| - 1] != '`';
    }
  }

  /** The trim of a fenced reply is the fence and its body. */
  lemma TrimFenced(a: string, open: string, j: string, b: string)
    requires AllPhpSpace(a) && AllPhpSpace(b)
    requires |open| > 0 && open[0] == '`'
    ensures Trim(Fenced(a, open, j, b)) == open + (j + PlainFence)
  {
    var f := open + (j + PlainFence);
    assert Fenced(a, open, j, b) == a + f + b;
    assert f[0] == '`' && f[|f| - 1] == '`';
    TrimSurrounded(a, f, b);
    TrimOfTrimmed(f);
  }

  /**
   * A reply fenced as ```json … ```, with whitespace around it and a body
   * without backticks, comes out of the class rule as exactly its body.
   */
  lemma TurmaRuleStripsJsonFence(a: string, j: string, b: string)
    requires AllPhpSpace(a) && AllPhpSpace(b) && NoBacktick(j)
    ensures CleanTurmaReply(Fenced(a, JsonFence, j, b)) == j
  {
    TrimFenced(a, JsonFence, j, b);
    var t := JsonFence + (j + PlainFence);
    assert t[..7] == JsonFence;
    assert t[7..] == j + PlainFence;
    TrimBackticksOfBody(j);
  }

  /** The roster rule gives the same body on the same reply. */
  lemma RosterRuleStripsJsonFence(a: string, j: string, b: string)
    requires AllPhpSpace(a) && AllPhpSpace(b) && NoBacktick(j)
    ensures CleanRosterReply(Fenced(a, JsonFence, j, b)) == j
  {
    TrimFenced(a, JsonFence, j, b);
    var t := JsonFence + (j + PlainFence);
    assert t[..7] == JsonFence;
    ReplaceAllDropsFront(JsonFence, j + PlainFence);
    assert '`' !in j;
    ReplaceAllCopiesPrefix(j, PlainFence, JsonFence, "");
    assert ReplaceAll(PlainFence, JsonFence, "") == PlainFence;
    assert ReplaceAll(t, JsonFence, "") == j + PlainFence;
    TrimBackticksOfBody(j);
  }

  /** Removing ```json from a reply fenced with it leaves the whitespace, the body and the closing fence. */
  lemma JsonFenceRemoved(a: string, j: string, b: string)
    requires AllPhpSpace(a) && AllPhpSpace(b) && NoBacktick(j)
    ensures ReplaceAll(Fenced(a, JsonFence, j, b), JsonFence, "") == a + (j + (PlainFence + b))
  {
    LeadingFenceRemoved(a, JsonFence, j + (PlainFence + b));
    BodyKeepsClosingFence(j, b);
  }

  /** j + ``` + b holds no ```json when j has no backtick. */
  lemma BodyKeepsClosingFence(j: string, b: string)
    requires AllPhpSpace(b) && NoBacktick(j)
    ensures ReplaceAll(j + (PlainFence + b), JsonFence, "") == j + (PlainFence + b)
  {
    assert '`' !in j;
    ReplaceAllCopiesPrefix(j, PlainFence + b, JsonFence, "");
    ClosingFenceHasNoJsonFence(b);
  }

  /** ``` followed by whitespace holds no ```json. */
  lemma ClosingFenceHasNoJsonFence(b: string)
    requires AllPhpSpace(b)
    ensures ReplaceAll(PlainFence + b, JsonFence, "") == PlainFence + b
  {
    var s := PlainFence + b;
    forall i ensures !MatchesAt(s, JsonFence, i) {
      if 0 <= i && i + 7 <= |s| {
        assert s[i..i + 7][3] == s[i + 3];
        if i + 3 >= 3 {
          assert IsPhpSpace(b[i]);
        }
      }
    }
    ReplaceAllAbsent(s, JsonFence, "");
  }

  /** Removing ``` from the whitespace, the body and the closing fence leaves the whitespace and the body. */
  lemma PlainFenceRemoved(a: string, j: string, b: string)
    requires AllPhpSpace(a) && AllPhpSpace(b) && NoBacktick(j)
    ensures ReplaceAll(a + (j + (PlainFence + b)), PlainFence, "") == a + j + b
  {
    SpaceHasNoBacktick(a);
    ReplaceAllCopiesPrefix(a, j + (PlainFence + b), PlainFence, "");
    ClosingFenceRemoved(j, b);
    assert a + (j + b) == a + j + b;
  }

  /** Removing ``` from j + ``` + b leaves j + b. */
  lemma ClosingFenceRemoved(j: string, b: string)
    requires AllPhpSpace(b) && NoBacktick(j)
    ensures ReplaceAll(j + (PlainFence + b), PlainFence, "") == j + b
  {
    SpaceHasNoBacktick(b);
    assert '`' !in j;
    ReplaceAllCopiesPrefix(j, PlainFence + b, PlainFence, "");
    ReplaceAllDropsFront(PlainFence, b);
    ReplaceAllNoMatch(b, PlainFence, "");
  }

  /**
   * The student rule on the same reply gives the body trimmed: it also trims
   * the whitespace just inside the fences, which the other two rules keep.
   */
  lemma AlunoRuleStripsJsonFence(a: string, j: string, b: string)
    requires AllPhpSpace(a) && AllPhpSpace(b) && NoBacktick(j)
    ensures CleanAlunoReply(Fenced(a, JsonFence, j, b)) == Trim(j)
  {
    JsonFenceRemoved(a, j, b);
    PlainFenceRemoved(a, j, b);
    TrimSurrounded(a, j, b);
  }

  /** Trimming a string without backticks leaves one without backticks. */
  lemma TrimKeepsNoBacktick(s: string)
    requires NoBacktick(s)
    ensures NoBacktick(Trim(s))
  {
    SliceNoBacktick(s, TrimStart(s), TrimStart(s) + |Trim(s)|);
  }

  /** A piece of a string without backticks has none. */
  lemma SliceNoBacktick(s: string, i: nat, j: nat)
    requires NoBacktick(s) && i <= j <= |s|
    ensures NoBacktick(s[i..j])
  {
    forall k | 0 <= k < j - i ensures s[i..j][k] != '`' {
      assert s[i..j][k] == s[i + k];
    }
  }

  /** A string without backticks does not start with a fence. */
  lemma NoBacktickUnfenced(t: string)
    requires NoBacktick(t)
    ensures !StartsWith(t, JsonFence)
  {
    if |t| >= 7 {
      assert t[..7][0] == t[0];
    }
  }

  /**
   * A reply without backticks passes all three rules as its trim: none of them
   * changes anything but the surrounding whitespace.
   */
  lemma UnfencedReply(text: string)
    requires NoBacktick(text)
    ensures CleanTurmaReply(text) == Trim(text)
    ensures CleanRosterReply(text) == Trim(text)
    ensures CleanAlunoReply(text) == Trim(text)
  {
    TrimKeepsNoBacktick(text);
    NoBacktickUnfenced(Trim(text));
    assert '`' !in text;
    ReplaceAllNoMatch(text, JsonFence, "");
    ReplaceAllNoMatch(text, PlainFence, "");
  }

  /** A bare-fenced body that does not start with "json" is not a ```json fence. */
  lemma BareFenceIsNotJsonFence(j: string)
    requires NoBacktick(j) && !StartsWith(j, "json")
    ensures !StartsWith(PlainFence + (j + PlainFence), JsonFence)
  {
    var t := PlainFence + (j + PlainFence);
    if |t| >= 7 {
      var w := t[..7];
      assert JsonFence[3..7] == "json";
      if |j| >= 4 {
        assert w[3..7] == j[..4];
      } else {
        assert w[3 + |j|] == '`';
      }
    }
  }

  /**
   * A reply fenced with a bare ``` (no language tag) passes the class and
   * roster rules only trimmed, fences included, while the student rule strips
   * the fences.
   */
  lemma PlainFencedReply(a: string, j: string, b: string)
    requires AllPhpSpace(a) && AllPhpSpace(b) && NoBacktick(j)
    requires !StartsWith(j, "json")
    ensures CleanTurmaReply(Fenced(a, PlainFence, j, b)) == PlainFence + (j + PlainFence)
    ensures CleanRosterReply(Fenced(a, PlainFence, j, b)) == PlainFence + (j + PlainFence)
    ensures CleanAlunoReply(Fenced(a, PlainFence, j, b)) == Trim(j)
  {
    TrimFenced(a, PlainFence, j, b);
    BareFenceIsNotJsonFence(j);
    PlainFencedStudentRule(a, j, b);
  }

  /** The student rule strips a bare fence too. */
  lemma PlainFencedStudentRule(a: string, j: string, b: string)
    requires AllPhpSpace(a) && AllPhpSpace(b) && NoBacktick(j)
    requires !StartsWith(j, "json")
    ensures CleanAlunoReply(Fenced(a, PlainFence, j, b)) == Trim(j)
  {
    BareFencedJsonRemoval(a, j, b);
    BareFencedPlainRemoval(a, j, b);
    TrimSurrounded(a, j, b);
  }

  lemma BareFencedJsonRemoval(a: string, j: string, b: string)
    requires AllPhpSpace(a) && AllPhpSpace(b) && NoBacktick(j)
    requires !StartsWith(j, "json")
    ensures ReplaceAll(Fenced(a, PlainFence, j, b), JsonFence, "") == Fenced(a, PlainFence, j, b)
  {
    SpaceHasNoBacktick(a);
    ReplaceAllCopiesPrefix(a, PlainFence + (j + (PlainFence + b)), JsonFence, "");
    BareFenceHasNoJsonFence(j, b);
  }

  lemma BareFencedPlainRemoval(a: string, j: string, b: string)
    requires AllPhpSpace(a) && AllPhpSpace(b) && NoBacktick(j)
    ensures ReplaceAll(Fenced(a, PlainFence, j, b), PlainFence, "") == a + j + b
  {
    LeadingFenceRemoved(a, PlainFence, j + (PlainFence + b));
    ClosingFenceRemoved(j, b);
    assert a + (j + b) == a + j + b;
  }

  /** Removing a fence skips the leading blanks and drops the fence that follows them. */
  lemma LeadingFenceRemoved(a: string, p: string, tail: string)
    requires AllPhpSpace(a) && |p| > 0 && p[0] == '`'
    ensures ReplaceAll(a + (p + tail), p, "") == a + ReplaceAll(tail, p, "")
  {
    SpaceHasNoBacktick(a);
    ReplaceAllDropsFront(p, tail);
    ReplaceAllCopiesPrefix(a, p + tail, p, "");
  }

  /** ```json does not occur in ``` + j + ``` + b when j has no backtick and does not start with "json". */
  lemma BareFenceHasNoJsonFence(j: string, b: string)
    requires NoBacktick(j) && AllPhpSpace(b)
    requires !StartsWith(j, "json")
    ensures ReplaceAll(PlainFence + (j + (PlainFence + b)), JsonFence, "") == PlainFence + (j + (PlainFence + b))
  {
    var s := PlainFence + (j + (PlainFence + b));
    var n := |j|;
    forall i ensures !MatchesAt(s, JsonFence, i) {
      if 0 <= i && i + 7 <= |s| {
        var w := s[i..i + 7];
        assert w[2] == s[i + 2] && w[3] == s[i + 3];
        if i == 0 {
          if n >= 4 {
            assert s[3..7] == j[..4];
          } else {
            assert w[3 + n] == s[3 + n] == '`';
          }
        } else if i < n {
          assert s[i + 2] == j[i - 1];
        } else if i < n + 3 {
          assert s[i + 3] == '`';
        } else {
          assert s[i + 3] == b[i - n - 3];
          assert IsPhpSpace(b[i - n - 3]);
        }
      }
    }
    ReplaceAllAbsent(s, JsonFence, "");
  }
}
