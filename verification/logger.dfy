/** Message shaping of `BasicLogger.log`: the text printed after the
    timestamp. Long messages are cut to 2000 characters and followed by a
    notice that states how many characters were left out. */
module Logger {
  import opened Wrappers
  import opened Text

  const Limit: nat := 2000
  const NoticeHead: string := " ...（已省略 "
  const NoticeTail: string := " 个字符）"

  /** The elision notice for `omitted` dropped characters. */
  function Notice(omitted: nat): string {
    NoticeHead + NatToDecimal(omitted) + NoticeTail
  }

  /** A custom prefix wins when it is truthy (present and non-empty). */
  function ChoosePrefix(defaultPrefix: string, custom: Option<string>): (p: string)
    ensures custom.Some? && custom.value != "" ==> p == custom.value
    ensures custom.None? || custom.value == "" ==> p == defaultPrefix
  {
    if custom.Some? && custom.value != "" then custom.value else defaultPrefix
  }

  /** The message part of a log line. */
  function Body(msg: string): (b: string)
    ensures |msg| <= Limit ==> b == msg
    ensures |msg| > Limit ==> |b| > Limit && b[..Limit] == msg[..Limit]
  {
    if |msg| <= Limit then msg else msg[..Limit] + Notice(|msg| - Limit)
  }

  /** `log(msg, custom_prefix)` without the timestamp: `[prefix] ` then the body. */
  function Log(defaultPrefix: string, msg: string, custom: Option<string>): (line: string)
    ensures var p := ChoosePrefix(defaultPrefix, custom);
            |line| == |p| + 3 + |Body(msg)|
            && line[..|p| + 3] == "[" + p + "] " && line[|p| + 3..] == Body(msg)
  {
    "[" + ChoosePrefix(defaultPrefix, custom) + "] " + Body(msg)
  }

  /** Reads a body back: the kept text and the number of characters the
      notice says were omitted; `None` for text no call can produce. */
  function ReadBody(b: string): Option<(string, nat)> {
    if |b| <= Limit then Some((b, 0))
    else if |b| < Limit + |NoticeHead| + |NoticeTail| then None
    else
      var rest := b[Limit..];
      var digits := rest[|NoticeHead|..|rest| - |NoticeTail|];
      if rest[..|NoticeHead|] == NoticeHead && rest[|rest| - |NoticeTail|..] == NoticeTail
         && IsDigits(digits)
      then Some((b[..Limit], DecimalToNat(digits)))
      else None
  }

  /** The body keeps exactly the first `min(|msg|, 2000)` characters and the
      notice reports exactly the rest, so the two add up to the message length. */
  lemma BodyRoundTrip(msg: string)
    ensures ReadBody(Body(msg)).Some?
    ensures var (kept, omitted) := ReadBody(Body(msg)).value;
            kept == msg[..if |msg| <= Limit then |msg| else Limit]
            && omitted == |msg| - |kept|
  {
    if |msg| > Limit {
      var n := |msg| - Limit;
      var b := Body(msg);
      var rest := b[Limit..];
      assert rest == Notice(n);
      assert rest[..|NoticeHead|] == NoticeHead;
      assert rest[|rest| - |NoticeTail|..] == NoticeTail;
      assert rest[|NoticeHead|..|rest| - |NoticeTail|] == NatToDecimal(n);
      DecimalRoundTrip(n);
    } else {
      assert msg[..|msg|] == msg;
    }
  }
}
