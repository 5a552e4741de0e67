/** Cleaning the language model's reply before it is parsed as JSON:
    Markdown code fences are removed, and on the text-analysis path the
    `{...}` payload is cut out. */
module Replies {
  import opened Wrappers
  import opened Text

  const FENCE: string := "```"
  const JSON_FENCE: string := "```json"

  /** The reply content, trimmed, with every "```json" and then every
      "```" removed, trimmed again. */
  function CleanReply(content: string): (r: string) {
    Trim(RemoveAll(RemoveAll(Trim(content), JSON_FENCE), FENCE))
  }

  /** A slice of a string without "```" has none either. */
  lemma {:induction false} NoFenceInSlice(s: string, lo: nat, hi: nat)
    requires lo <= hi <= |s|
    requires forall k: nat :: !OccursAt(s, FENCE, k)
    ensures forall k: nat :: !OccursAt(s[lo..hi], FENCE, k)
  {
    forall k: nat | OccursAt(s[lo..hi], FENCE, k)
      ensures false
    {
      var t := s[lo..hi];
      assert |FENCE| == 3 && k + 3 <= |t|;
      assert t[k] == s[lo + k] && t[k + 1] == s[lo + k + 1] && t[k + 2] == s[lo + k + 2];
      assert t[k..k + 3] == s[lo + k..lo + k + 3];
      assert OccursAt(s, FENCE, lo + k);
    }
  }

  /** A cleaned reply contains no code fence at all and neither starts
      nor ends with whitespace. */
  lemma CleanReplyClean(content: string)
    ensures var r := CleanReply(content);
      && (forall k: nat :: !OccursAt(r, FENCE, k))
      && (r == [] || (!IsSpace(r[0]) && !IsSpace(r[|r| - 1])))
  {
    var s := RemoveAll(RemoveAll(Trim(content), JSON_FENCE), FENCE);
    RemoveAllTripleLeavesNone(RemoveAll(Trim(content), JSON_FENCE), '`');
    assert FENCE == ['`', '`', '`'];
    TrimFacts(s);
    NoFenceInSlice(s, LeadingSpaces(s), LeadingSpaces(s) + |Trim(s)|);
  }

  /** Removing a pattern whose first character never occurs changes
      nothing. */
  lemma {:induction false} RemoveAllAbsent(s: string, pat: string)
    requires pat != [] && pat[0] !in s
    ensures RemoveAll(s, pat) == s
    decreases |s|
  {
    if s != [] {
      assert !OccursAt(s, pat, 0) by { assert s[0] != pat[0]; }
      RemoveAllAbsent(s[1..], pat);
    }
  }

  /** Trimming a string that neither starts nor ends with whitespace
      changes nothing. */
  lemma TrimTrimmed(s: string)
    requires s == [] || (!IsSpace(s[0]) && !IsSpace(s[|s| - 1]))
    ensures Trim(s) == s
  {
    assert TrimStart(s) == s;
    assert TrimEnd(s) == s;
  }

  /** A reply without backquotes and without surrounding whitespace is
      passed on unchanged. */
  lemma CleanReplyPlain(content: string)
    requires '`' !in content
    requires content == [] || (!IsSpace(content[0]) && !IsSpace(content[|content| - 1]))
    ensures CleanReply(content) == content
  {
    TrimTrimmed(content);
    RemoveAllAbsent(content, JSON_FENCE);
    RemoveAllAbsent(content, FENCE);
    TrimTrimmed(content);
  }

  /** The text from the first `{` through the last `}` when that `}` comes
      after the `{`; otherwise the text unchanged. */
  function Payload(s: string): (r: string) {
    match IndexOfChar(s, '{')
    case None => s
    case Some(i) =>
      match LastIndexOfChar(s, '}')
      case None => s
      case Some(j) => if j + 1 > i then s[i..j + 1] else s
  }

  /** When some `{` comes before some `}`, the payload runs from the first
      `{` to the last `}`; otherwise the text passes unchanged. */
  lemma PayloadSpec(s: string)
    ensures (exists i, j :: 0 <= i < j < |s| && s[i] == '{' && s[j] == '}') ==>
      exists i, j :: && 0 <= i < j < |s| && s[i] == '{' && s[j] == '}'
        && '{' !in s[..i] && '}' !in s[j + 1..] && Payload(s) == s[i..j + 1]
    ensures (forall i, j :: 0 <= i < j < |s| && s[i] == '{' ==> s[j] != '}') ==> Payload(s) == s
  {
    if exists i, j :: 0 <= i < j < |s| && s[i] == '{' && s[j] == '}' {
      var i, j :| 0 <= i < j < |s| && s[i] == '{' && s[j] == '}';
      var a := IndexOfChar(s, '{');
      var b := LastIndexOfChar(s, '}');
      assert a.Some? by { assert s[i] == '{'; }
      assert b.Some? by { assert s[j] == '}'; }
      assert Payload(s) == s[a.value..b.value + 1];
    }
  }
}
