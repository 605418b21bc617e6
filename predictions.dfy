/**
 * `splitCodeResponse`: a model reply is cut on its first ``` fences into the
 * text before the code, the language tag, the code itself and the text after.
 */
module Predictions {
  import opened Strings

  const Fence: string := "```"
  const Newline: string := "\n"

  datatype CodeResponse = CodeResponse(beforeText: string, language: string, code: string, afterText: string)

  /**
   * The reply split on the fence: the first piece is the text before, the
   * second holds the language on its first line and the code on the rest,
   * and any further pieces, rejoined with fences, are the text after.
   */
  function SplitCodeResponse(inputStr: string): (r: CodeResponse)
    ensures !Contains(inputStr, Fence) ==> r == CodeResponse("", "", "", "")
    ensures !Contains(r.beforeText, Fence) && !Contains(r.language, Newline)
  {
    var parts := Split(inputStr, Fence);
    if |parts| > 1 then
      var beforeText := parts[0];
      var languageAndCode := Split(parts[1], Newline);
      var language := languageAndCode[0];
      var code := Join(languageAndCode[1..], Newline);
      var afterText := if |parts| > 2 then Join(parts[2..], Fence) else "";
      CodeResponse(beforeText, language, code, afterText)
    else
      CodeResponse("", "", "", "")
  }

  /** The fenced segment: the text between the first fence and the next one, or the end. */
  function Segment(inputStr: string): (segment: string)
    requires Contains(inputStr, Fence)
    ensures !Contains(segment, Fence)
  {
    Split(inputStr, Fence)[1]
  }

  /** How many fences the reply holds. */
  function FenceCount(inputStr: string): nat {
    |Split(inputStr, Fence)| - 1
  }

  /** With a fence present, `beforeText` is exactly the text up to the first one. */
  lemma BeforeTextIsPrefix(inputStr: string)
    requires Contains(inputStr, Fence)
    ensures var i := IndexOf(inputStr, Fence);
            0 <= i && SplitCodeResponse(inputStr).beforeText == inputStr[..i]
  {
  }

  /**
   * The segment is the language line, then (when the segment has a newline)
   * a newline and the code; without a newline the code is empty.
   */
  lemma {:induction false} LanguageAndCode(inputStr: string)
    requires Contains(inputStr, Fence)
    ensures var r, segment := SplitCodeResponse(inputStr), Segment(inputStr);
            && (Contains(segment, Newline) ==> segment == r.language + Newline + r.code)
            && (!Contains(segment, Newline) ==> segment == r.language && r.code == "")
  {
    var segment := Segment(inputStr);
    var lines := Split(segment, Newline);
    JoinSplit(segment, Newline);
    if |lines| > 1 {
      assert lines == [lines[0]] + lines[1..];
      JoinCons(lines[0], lines[1..], Newline);
    }
  }

  /**
   * The reply is reassembled from the fields and the segment: with one fence
   * only the segment follows it and `afterText` is empty; with more, the
   * segment, a fence and `afterText` follow.
   */
  lemma {:induction false} Reassembles(inputStr: string)
    requires Contains(inputStr, Fence)
    ensures var r, segment := SplitCodeResponse(inputStr), Segment(inputStr);
            && (FenceCount(inputStr) == 1 ==> r.afterText == "" && inputStr == r.beforeText + Fence + segment)
            && (FenceCount(inputStr) >= 2 ==> inputStr == r.beforeText + Fence + segment + Fence + r.afterText)
  {
    var parts := Split(inputStr, Fence);
    OuterFields(inputStr);
    JoinSplit(inputStr, Fence);
    JoinFirstTwo(parts, Fence);
    assert FenceCount(inputStr) == |parts| - 1;
  }

  /** With a fence present, `beforeText` and `afterText` come straight from the pieces. */
  lemma OuterFields(inputStr: string)
    requires Contains(inputStr, Fence)
    ensures var parts, r := Split(inputStr, Fence), SplitCodeResponse(inputStr);
            && |parts| >= 2 && r.beforeText == parts[0] && parts[1] == Segment(inputStr)
            && r.afterText == if |parts| > 2 then Join(parts[2..], Fence) else ""
  {
  }

  lemma JoinFirstTwo(parts: seq<string>, sep: string)
    requires |parts| >= 2
    ensures |parts| == 2 ==> Join(parts, sep) == parts[0] + sep + parts[1]
    ensures |parts| > 2 ==> Join(parts, sep) == parts[0] + sep + parts[1] + sep + Join(parts[2..], sep)
  {
    assert parts[1..][1..] == parts[2..];
    var a, b, j := parts[0] + sep, parts[1] + sep, Join(parts[2..], sep);
    if |parts| > 2 {
      assert a + (b + j) == a + b + j;
      assert a + b == parts[0] + sep + parts[1] + sep;
    }
  }

  /** Text free of a character the separator starts with holds no separator. */
  lemma FreeOfFirst(p: string, sep: string)
    requires |sep| > 0 && Free(p, sep[0])
    ensures !Contains(p, sep)
  {
    forall j: nat | j + |sep| <= |p| ensures !IsAt(p, sep, j) {
      assert p[j..j + |sep|][0] == p[j];
    }
  }

  /** After text free of the separator's first character, the first separator is the one that follows it. */
  lemma SplitAfterFree(p0: string, sep: string, rest: string)
    requires |sep| > 0 && Free(p0, sep[0])
    ensures Split(p0 + sep + rest, sep) == [p0] + Split(rest, sep)
  {
    var s := p0 + sep + rest;
    assert IsAt(s, sep, |p0|) by { assert s[|p0|..|p0| + |sep|] == sep; }
    forall j: nat | j < |p0| ensures !IsAt(s, sep, j) {
      if j + |sep| <= |s| {
        assert s[j..j + |sep|][0] == s[j] == p0[j];
      }
    }
    assert IndexOf(s, sep) == |p0|;
    assert s[..|p0|] == p0 && s[|p0| + |sep|..] == rest;
  }

  /**
   * A reply written as text, a fence, a language line and code (none of them
   * holding a backtick, the language holding no newline) splits back into exactly
   * those parts.
   */
  lemma SplitsComposedReply(before: string, language: string, code: string)
    requires Free(before, '`') && Free(language, '`') && Free(code, '`')
    requires Free(language, '\n')
    ensures SplitCodeResponse(before + Fence + (language + Newline + code))
         == CodeResponse(before, language, code, "")
  {
    var segment := language + Newline + code;
    assert Free(segment, '`');
    FreeOfFirst(segment, Fence);
    SplitAfterFree(before, Fence, segment);
    SplitAfterFree(language, Newline, code);
    JoinSplit(code, Newline);
  }
}
