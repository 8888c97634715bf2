/**
 * The write-time markdown renderers of the receive handler, and a reader for
 * the fenced blocks they produce. The reader is the renderers' partner: it
 * recovers the fields from the rendered text, which is only possible because
 * the fence never occurs inside the fenced content.
 */
module Markdown {
  import opened Common
  import opened Fence

  /** One fenced code block: opening fence and info string, body, closing fence. */
  function CodeBlock(fence: string, info: string, body: string): string {
    fence + info + "\n" + body + "\n" + fence
  }

  /** `init`: a level-one heading. */
  function InitMarkdown(title: string): string {
    "# " + title
  }

  /** `exec`: the code block tagged with its language, a blank line, the output block. */
  function ExecMarkdown(language: string, input: string, output: string): string {
    CodeBlock(FenceFor(input), language, input) + "\n\n" + CodeBlock(FenceFor(output), "output", output)
  }

  /** `image`: a `bash {image}` block around the input, then `![alt]()` when alt is non-empty. */
  function ImageMarkdown(input: string, alt: string): string {
    var block := CodeBlock(FenceFor(input), "bash {image}", input);
    if alt != "" then block + "\n\n![" + alt + "]()" else block
  }

  // ---------------------------------------------------------------------------
  // Reading fenced blocks back

  datatype Block = Block(info: string, body: string)

  /** An info string a reader can take back: one line that does not extend the fence. */
  predicate InfoString(info: string) {
    '\n' !in info && (info == [] || info[0] != Backtick)
  }

  /** The backticks at the start of `s`. */
  function LeadingRun(s: string): (r: nat)
    ensures r <= |s| && RunAt(s, 0, r)
    ensures r < |s| ==> s[r] != Backtick
  {
    if s == [] || s[0] != Backtick then 0 else LeadingRun(s[1..]) + 1
  }

  /** The first index of `c` in `s`. */
  function IndexOf(s: string, c: char): (r: Option<nat>)
    ensures r.Some? ==> r.value < |s| && s[r.value] == c && c !in s[..r.value]
    ensures r.None? ==> c !in s
  {
    if s == [] then None
    else if s[0] == c then Some(0)
    else match IndexOf(s[1..], c)
      case None => None
      case Some(j) => Some(j + 1)
  }

  /** The first index at which `pat` occurs in `s`. */
  function Find(s: string, pat: string): (r: Option<nat>)
    ensures r.Some? ==> OccursAt(s, r.value, pat) && forall j :: 0 <= j < r.value ==> !OccursAt(s, j, pat)
    ensures r.None? ==> forall j :: !OccursAt(s, j, pat)
    decreases |s|
  {
    if |s| < |pat| then None
    else if s[..|pat|] == pat then Some(0)
    else match Find(s[1..], pat)
      case None =>
        assert forall j :: OccursAt(s, j, pat) ==> j == 0 || OccursAt(s[1..], j - 1, pat);
        None
      case Some(j) =>
        assert forall i :: 0 < i <= j ==> (OccursAt(s, i, pat) <==> OccursAt(s[1..], i - 1, pat));
        Some(j + 1)
  }

  /**
   * Reads one fenced block at the start of `md`: the leading run of at least
   * three backticks is the fence, the rest of that line the info string, and
   * the body runs up to the newline before the next occurrence of the fence.
   * Returns the block and the text after its closing fence.
   */
  function ReadBlock(md: string): Option<(Block, string)> {
    var n := LeadingRun(md);
    if n < 3 then None else ReadInfoLine(md[..n], md[n..])
  }

  /** After the opening fence: the info string up to the end of the line. */
  function ReadInfoLine(fence: string, tail: string): Option<(Block, string)> {
    match IndexOf(tail, '\n')
    case None => None
    case Some(j) => ReadBody(fence, tail[..j], tail[j + 1..])
  }

  /** After the info line: the body up to the newline before the closing fence. */
  function ReadBody(fence: string, info: string, rest: string): Option<(Block, string)> {
    match Find(rest, fence)
    case None => None
    case Some(k) =>
      if k == 0 || rest[k - 1] != '\n' then None
      else Some((Block(info, rest[..k - 1]), rest[k + |fence|..]))
  }

  /** Reads an `exec` chunk back into language, input and output. */
  function ReadExec(md: string): Option<(string, string, string)> {
    match ReadBlock(md)
    case None => None
    case Some((code, rest)) => ReadOutputBlock(code, rest)
  }

  /** After the code block of an `exec` chunk: a blank line and the `output` block. */
  function ReadOutputBlock(code: Block, rest: string): Option<(string, string, string)> {
    if |rest| < 2 || rest[..2] != "\n\n" then None
    else match ReadBlock(rest[2..])
      case Some((out, "")) =>
        if out.info == "output" then Some((code.info, code.body, out.body)) else None
      case _ => None
  }

  /** Reads an `image` chunk back into input and alt text. */
  function ReadImage(md: string): Option<(string, string)> {
    match ReadBlock(md)
    case None => None
    case Some((block, rest)) =>
      if block.info != "bash {image}" then None else ReadAltSuffix(block.body, rest)
  }

  /** After the block of an `image` chunk: nothing, or a blank line and `![alt]()`. */
  function ReadAltSuffix(input: string, rest: string): Option<(string, string)> {
    if rest == "" then Some((input, ""))
    else if |rest| > 7 && rest[..4] == "\n\n![" && rest[|rest| - 3..] == "]()" then
      Some((input, rest[4..|rest| - 3]))
    else None
  }

  /** Reads an `init` chunk back into its title. */
  function ReadInit(md: string): Option<string> {
    if |md| >= 2 && md[..2] == "# " then Some(md[2..]) else None
  }

  // ---------------------------------------------------------------------------
  // Round trips

  /** The leading run of a fence followed by a non-backtick is the fence. */
  lemma LeadingRunOfFence(fence: string, s: string)
    requires AllBackticks(fence)
    requires s == [] || s[0] != Backtick
    ensures LeadingRun(fence + s) == |fence|
  {
    var md := fence + s;
    assert RunAt(md, 0, |fence|);
    assert |fence| < |md| ==> md[|fence|] == s[0];
  }

  /** The first newline after a one-line info string ends that line. */
  lemma IndexOfLineEnd(info: string, s: string)
    requires '\n' !in info
    ensures IndexOf(info + ['\n'] + s, '\n') == Some(|info|)
  {
    var t := info + ['\n'] + s;
    assert t[|info|] == '\n';
    assert forall j :: 0 <= j < |info| ==> t[j] == info[j];
    assert forall j :: |info| < j <= |t| ==> t[|info|] in t[..j];
  }

  /** The first occurrence of a fence absent from the body is the one after it. */
  lemma FindClosingFence(body: string, fence: string, rest: string)
    requires AllBackticks(fence) && |fence| > 0
    requires forall i :: !OccursAt(body, i, fence)
    ensures Find(body + ['\n'] + fence + rest, fence) == Some(|body| + 1)
  {
    var after := body + ['\n'] + fence + rest;
    var n, k := |fence|, |body| + 1;
    assert after[k..k + n] == fence;
    assert OccursAt(after, k, fence);
    forall i | 0 <= i < k ensures !OccursAt(after, i, fence) {
      if i + n <= |body| {
        assert after[i..i + n] == body[i..i + n];
        assert !OccursAt(body, i, fence);
      } else {
        assert after[i..i + n][|body| - i] == '\n' != fence[|body| - i];
      }
    }
  }

  /**
   * A block whose fence does not occur in its body reads back as written,
   * whatever follows it.
   */
  lemma ReadCodeBlock(fence: string, info: string, body: string, rest: string)
    requires AllBackticks(fence) && |fence| >= 3
    requires forall i :: !OccursAt(body, i, fence)
    requires InfoString(info)
    ensures ReadBlock(CodeBlock(fence, info, body) + rest) == Some((Block(info, body), rest))
  {
    var after := body + ['\n'] + fence + rest;
    var tail := info + ['\n'] + after;
    assert CodeBlock(fence, info, body) + rest == fence + tail;
    ReadOpeningFence(fence, tail);
    ReadInfoLineOf(fence, info, after);
    ReadBodyOf(fence, info, body, rest);
  }

  lemma ReadOpeningFence(fence: string, tail: string)
    requires AllBackticks(fence) && |fence| >= 3
    requires tail == [] || tail[0] != Backtick
    ensures ReadBlock(fence + tail) == ReadInfoLine(fence, tail)
  {
    LeadingRunOfFence(fence, tail);
    assert (fence + tail)[..|fence|] == fence && (fence + tail)[|fence|..] == tail;
  }

  lemma ReadInfoLineOf(fence: string, info: string, after: string)
    requires '\n' !in info
    ensures ReadInfoLine(fence, info + ['\n'] + after) == ReadBody(fence, info, after)
  {
    var tail := info + ['\n'] + after;
    IndexOfLineEnd(info, after);
    assert tail[..|info|] == info && tail[|info| + 1..] == after;
  }

  lemma ReadBodyOf(fence: string, info: string, body: string, rest: string)
    requires AllBackticks(fence) && |fence| > 0
    requires forall i :: !OccursAt(body, i, fence)
    ensures ReadBody(fence, info, body + ['\n'] + fence + rest) == Some((Block(info, body), rest))
  {
    var after := body + ['\n'] + fence + rest;
    FindClosingFence(body, fence, rest);
    var k := |body| + 1;
    assert after[k - 1] == '\n' && after[..k - 1] == body && after[k + |fence|..] == rest;
  }

  /** The `exec` rendering reads back into its three fields. */
  lemma ExecRoundTrip(language: string, input: string, output: string)
    requires InfoString(language)
    ensures ReadExec(ExecMarkdown(language, input, output)) == Some((language, input, output))
  {
    var fence := FenceFor(input);
    var second := CodeBlock(FenceFor(output), "output", output);
    FenceNotInContent(input);
    assert ExecMarkdown(language, input, output) == CodeBlock(fence, language, input) + ("\n\n" + second);
    ReadCodeBlock(fence, language, input, "\n\n" + second);
    ReadOutputBlockOf(Block(language, input), output);
  }

  lemma ReadOutputBlockOf(code: Block, output: string)
    ensures ReadOutputBlock(code, "\n\n" + CodeBlock(FenceFor(output), "output", output))
         == Some((code.info, code.body, output))
  {
    var fence := FenceFor(output);
    var second := CodeBlock(fence, "output", output);
    FenceNotInContent(output);
    ReadCodeBlock(fence, "output", output, "");
    assert ("\n\n" + second)[2..] == second + "";
  }

  /** The `image` rendering reads back into its input and alt text. */
  lemma ImageRoundTrip(input: string, alt: string)
    ensures ReadImage(ImageMarkdown(input, alt)) == Some((input, alt))
  {
    var fence := FenceFor(input);
    var suffix := if alt != "" then "\n\n![" + alt + "]()" else "";
    FenceNotInContent(input);
    assert ImageMarkdown(input, alt) == CodeBlock(fence, "bash {image}", input) + suffix;
    ReadCodeBlock(fence, "bash {image}", input, suffix);
    ReadAltSuffixOf(input, alt);
  }

  lemma ReadAltSuffixOf(input: string, alt: string)
    ensures ReadAltSuffix(input, if alt != "" then "\n\n![" + alt + "]()" else "") == Some((input, alt))
  {
    if alt != "" {
      var suffix := "\n\n![" + alt + "]()";
      assert suffix[..4] == "\n\n![" && suffix[|suffix| - 3..] == "]()";
      assert suffix[4..|suffix| - 3] == alt;
    }
  }

  /**
   * Without `InfoString(language)` the `exec` rendering is ambiguous: a
   * newline in the language moves text between the info line and the input,
   * so no reader can recover both request field sets.
   */
  lemma ExecLanguageNewlineCollides()
    ensures ExecMarkdown("x\ny", "z", "o") == ExecMarkdown("x", "y\nz", "o")
    ensures ("x\ny", "z") != ("x", "y\nz")
  {
    NoBackticksFence("z");
    NoBackticksFence("y\nz");
    NoBackticksFence("o");
  }

  /** Text without a backtick gets the shortest fence. */
  lemma {:induction false} NoBackticksFence(s: string)
    requires Backtick !in s
    ensures LongestRun(s) == 0 && FenceFor(s) == "```"
  {
    if s != [] {
      assert Backtick !in s[..|s| - 1];
      NoBackticksFence(s[..|s| - 1]);
    }
  }

  /** The `init` rendering reads back into its title. */
  lemma InitRoundTrip(title: string)
    ensures ReadInit(InitMarkdown(title)) == Some(title)
  {
    assert InitMarkdown(title)[2..] == title;
  }
}
