/** `ServerLoader`: the launch configuration of one server process, its
    path check, and the command line handed to the process launcher. */
module Loader {
  import opened Wrappers
  import opened Errors
  import opened Text
  import opened Paths

  /** The extra JVM arguments: one string, or a list that is space-joined. */
  datatype ArgList = ArgString(s: string) | ArgItems(items: seq<string>)

  datatype ServerLoader = ServerLoader(javaPath: string, jarPath: string, args: ArgList, noGui: bool,
                                       workPath: string, cmd: string, splitCmd: seq<string>)

  function ArgsText(a: ArgList): string {
    match a
    case ArgString(s) => s
    case ArgItems(xs) => Join(xs, ' ')
  }

  /** The last word of the command line. */
  function GuiWord(noGui: bool): string {
    if noGui then "nogui" else ""
  }

  /** `f"{java} {args} -jar {jar} {'nogui' if no_gui else ''}"`. */
  function CommandLine(java: string, args: ArgList, jar: string, noGui: bool): string {
    java + " " + ArgsText(args) + " -jar " + jar + " " + GuiWord(noGui)
  }

  /** `ServerLoader.__init__`: a relative jar path raises `ValueError`; the
      working directory is the given one when truthy, otherwise the jar's
      directory; `split_cmd` is the command line cut at every single space. */
  function NewLoader(java: string, jar: string, args: ArgList, noGui: bool,
                     workPath: Option<string>): (r: Result<ServerLoader, Error>)
    ensures r.Failure? <==> !IsAbs(jar)
    ensures r.Failure? ==> r.error == RelativeJarPath
    ensures r.Success? ==>
              r.value.workPath == (if workPath.Some? && workPath.value != "" then workPath.value
                                   else DirName(jar))
    ensures r.Success? ==> r.value.cmd == CommandLine(java, args, jar, noGui)
    ensures r.Success? ==> r.value.splitCmd == Split(r.value.cmd, ' ')
    ensures r.Success? ==> Join(r.value.splitCmd, ' ') == r.value.cmd
    ensures r.Success? ==> r.value.splitCmd[|r.value.splitCmd| - 1] == GuiWord(noGui)
  {
    if !IsAbs(jar) then Failure(RelativeJarPath)
    else
      var wp := if workPath.Some? && workPath.value != "" then workPath.value else DirName(jar);
      var cmd := CommandLine(java, args, jar, noGui);
      SplitThenJoin(cmd, ' ');
      LastWord(java + " " + ArgsText(args) + " -jar " + jar, noGui);
      Success(ServerLoader(java, jar, args, noGui, wp, cmd, Split(cmd, ' ')))
  }

  /** Whatever precedes it, the last token is `nogui` or the empty string. */
  lemma LastWord(head: string, noGui: bool)
    ensures var parts := Split(head + " " + GuiWord(noGui), ' ');
            parts[|parts| - 1] == GuiWord(noGui)
  {
    SplitConcat(head, GuiWord(noGui), ' ');
    SplitFree(GuiWord(noGui), ' ');
  }

  /** With space-free executable, argument text and jar path, the command
      splits into exactly five tokens; an empty argument text or
      `no_gui=False` shows up as an empty token, not a missing one. */
  lemma SplitCmdShape(java: string, args: ArgList, jar: string, noGui: bool)
    requires ' ' !in java && ' ' !in ArgsText(args) && ' ' !in jar
    ensures Split(CommandLine(java, args, jar, noGui), ' ')
            == [java, ArgsText(args), "-jar", jar, GuiWord(noGui)]
  {
    var parts := [java, ArgsText(args), "-jar", jar, GuiWord(noGui)];
    CommandLineJoins(java, args, jar, noGui);
    assert forall i :: 0 <= i < |parts| ==> ' ' !in parts[i] by {
      assert ' ' !in "-jar" && ' ' !in GuiWord(noGui);
    }
    JoinThenSplit(parts, ' ');
  }

  /** The command line is its five tokens joined by single spaces. */
  lemma CommandLineJoins(java: string, args: ArgList, jar: string, noGui: bool)
    ensures Join([java, ArgsText(args), "-jar", jar, GuiWord(noGui)], ' ') == CommandLine(java, args, jar, noGui)
  {
    var a, g := ArgsText(args), GuiWord(noGui);
    var parts := [java, a, "-jar", jar, g];
    var t3 := jar + [' '] + g;
    var t2 := "-jar" + [' '] + t3;
    var t1 := a + [' '] + t2;
    assert Join(parts[4..], ' ') == g;
    assert Join(parts[3..], ' ') == t3;
    assert Join(parts[2..], ' ') == t2;
    assert Join(parts[1..], ' ') == t1;
    assert Join(parts, ' ') == java + [' '] + t1;
    assert java + [' '] + t1 == java + " " + a + " -jar " + jar + " " + g;
  }
}
