/**
 * The render command each worker runs: Blender in background mode on the
 * project file, rendering the animation from a start frame to an end frame,
 *   blender -b "<project path>" -s <start> -e <end> -a
 * and a parser that reads the two frame numbers back out of such a command.
 */
module CommandLine {
  import opened Wrappers
  import opened Decimal
  import opened FrameRanges

  /** The part of the command before the start frame. */
  function Prefix(projectPath: string): string {
    "blender -b \"" + projectPath + "\" -s "
  }

  /** The command text with `r.start` and `r.end` substituted for the two `%d`. */
  function CommandText(projectPath: string, r: FrameRange): (text: string)
    ensures Prefix(projectPath) <= text
    ensures text[|text| - 3..] == " -a"
  {
    Prefix(projectPath) + FormatInt(r.start) + " -e " + FormatInt(r.end) + " -a"
  }

  /** One command per range, in order. */
  function CommandsFor(projectPath: string, rs: seq<FrameRange>): seq<string> {
    seq(|rs|, i requires 0 <= i < |rs| => CommandText(projectPath, rs[i]))
  }

  lemma CommandsForGrows(projectPath: string, rs: seq<FrameRange>, r: FrameRange)
    ensures CommandsFor(projectPath, rs + [r]) == CommandsFor(projectPath, rs) + [CommandText(projectPath, r)]
  {
  }

  /** The index of the first space in `s`, or `|s|` when there is none. */
  function IndexOfSpace(s: string): (k: nat)
    ensures k <= |s|
    ensures k < |s| ==> s[k] == ' '
    ensures forall j :: 0 <= j < k ==> s[j] != ' '
    decreases |s|
  {
    if s == [] then 0 else if s[0] == ' ' then 0 else 1 + IndexOfSpace(s[1..])
  }

  /** Reads `<start> -e <end>`. */
  function ParseEndpoints(m: string): Option<FrameRange> {
    var k := IndexOfSpace(m);
    if k + 4 <= |m| && m[k..k + 4] == " -e " then
      match (ParseInt(m[..k]), ParseInt(m[k + 4..]))
      case (Some(s), Some(e)) => Some(FrameRange(s, e))
      case _ => None
    else
      None
  }

  /** The frame range a command for `projectPath` renders, if `text` is such a command. */
  function ParseCommand(projectPath: string, text: string): Option<FrameRange> {
    var pre := Prefix(projectPath);
    if |pre| + 3 <= |text| && text[..|pre|] == pre && text[|text| - 3..] == " -a" then
      ParseEndpoints(text[|pre|..|text| - 3])
    else
      None
  }

  lemma IndexOfSpaceAfter(a: string, b: string)
    requires ' ' !in a && 1 <= |b| && b[0] == ' '
    ensures IndexOfSpace(a + b) == |a|
  {
    assert (a + b)[|a|] == ' ';
  }

  lemma ParseEndpointsOfText(r: FrameRange)
    ensures ParseEndpoints(FormatInt(r.start) + " -e " + FormatInt(r.end)) == Some(r)
  {
    var a, b := FormatInt(r.start), FormatInt(r.end);
    var m := a + " -e " + b;
    assert m == a + (" -e " + b);
    IndexOfSpaceAfter(a, " -e " + b);
    assert m[..|a|] == a;
    assert m[|a|..|a| + 4] == " -e ";
    assert m[|a| + 4..] == b;
    ParseFormatInt(r.start);
    ParseFormatInt(r.end);
  }

  /** A command's text gives back exactly the frame range it was made from. */
  lemma ParseCommandText(projectPath: string, r: FrameRange)
    ensures ParseCommand(projectPath, CommandText(projectPath, r)) == Some(r)
  {
    var pre := Prefix(projectPath);
    var mid := FormatInt(r.start) + " -e " + FormatInt(r.end);
    var text := CommandText(projectPath, r);
    assert text == pre + mid + " -a";
    assert text[..|pre|] == pre;
    assert text[|text| - 3..] == " -a";
    assert text[|pre|..|text| - 3] == mid;
    ParseEndpointsOfText(r);
  }

  /** Commands for different frame ranges are different texts. */
  lemma CommandTextInjective(projectPath: string, r1: FrameRange, r2: FrameRange)
    requires CommandText(projectPath, r1) == CommandText(projectPath, r2)
    ensures r1 == r2
  {
    ParseCommandText(projectPath, r1);
    ParseCommandText(projectPath, r2);
  }
}
