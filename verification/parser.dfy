/** The console command parser (`CmdParser`): a line such as `.kick a b`
    is recognised by its start character and cut at a separator character
    into a command word and its arguments. */
module CmdParser {
  import opened Wrappers
  import opened Text

  /** A recognised command; `args` is absent when the line had no separator. */
  datatype Matched = Matched(cmd: string, args: Option<seq<string>>)

  /** The number of arguments, absent arguments counting as none. */
  function ArgCount(m: Matched): nat {
    match m.args
    case None => 0
    case Some(a) => |a|
  }

  /** `Matched.verify(cmd, args_num)`. */
  function Verify(m: Matched, cmd: string, argsNum: int): (r: bool)
    ensures r <==> m.cmd == cmd && (if m.args.None? then argsNum == 0 else |m.args.value| == argsNum)
  {
    m.cmd == cmd && ArgCount(m) == argsNum
  }

  /** The input after `strip('\n')` followed by `strip(' ')`. */
  function Normalize(s: string): string {
    Strip(Strip(s, '\n'), ' ')
  }

  /** The line after its start character, cut at every separator: the
      first piece is the command, any further pieces the arguments. */
  function Cut(u: string, sep: char): (m: Matched)
    ensures Join([m.cmd] + m.args.GetOr([]), sep) == u
    ensures m.args.None? <==> sep !in u
    ensures m.args.None? ==> m.cmd == u
    ensures sep !in m.cmd
    ensures m.args.Some? ==>
              |m.args.value| == multiset(u)[sep]
              && forall i :: 0 <= i < |m.args.value| ==> sep !in m.args.value[i]
  {
    var parts := Split(u, sep);
    SplitPieceCount(u, sep);
    SplitThenJoin(u, sep);
    if |parts| == 1 then
      Matched(parts[0], None)
    else
      assert [parts[0]] + parts[1..] == parts;
      Matched(parts[0], Some(parts[1..]))
  }

  /** `CmdParser(start, sep).parse(s)`. */
  function Parse(start: char, sep: char, s: string): (r: Option<Matched>)
    ensures r.None? <==> |Normalize(s)| == 0 || Normalize(s)[0] != start
    ensures r.Some? ==>
              var u := Normalize(s)[1..];
              Join([r.value.cmd] + r.value.args.GetOr([]), sep) == u
              && (r.value.args.None? <==> sep !in u)
              && sep !in r.value.cmd
              && (r.value.args.Some? ==> |r.value.args.value| == multiset(u)[sep])
  {
    var t := Normalize(s);
    if |t| == 0 || t[0] != start then None
    else Some(Cut(t[1..], sep))
  }

  /** `verify(c, n)` holds of a parsed line exactly when the text before the
      first separator is `c` and the line holds `n` separators. */
  lemma ParseVerify(start: char, sep: char, s: string, c: string, n: int)
    requires |Normalize(s)| > 0 && Normalize(s)[0] == start
    ensures Parse(start, sep, s).Some?
    ensures Verify(Parse(start, sep, s).value, c, n)
            <==> Split(Normalize(s)[1..], sep)[0] == c && multiset(Normalize(s)[1..])[sep] == n
  {
    SplitPieceCount(Normalize(s)[1..], sep);
  }
}
