/** Reading a text line by line, as `bufio.Scanner` does with a buffer of bounded size. */
module Scanner {
  import opened Text

  /** A scanner gives up on a line of this many bytes or more. */
  const MAX_LINE := 0x10_0000

  datatype Scanned = Scanned(lines: seq<string>, tooLong: bool)

  /** The lines of a text, each less one trailing '\r', up to the first that is too long. */
  function Scan(text: string): Scanned
    decreases |text|
  {
    if text == "" then Scanned([], false)
    else
      var i := FirstOf(text, "\n", 0);
      if i >= MAX_LINE then Scanned([], true)
      else
        var line := TrimSuffix(text[..i], "\r");
        if i == |text| then Scanned([line], false)
        else var more := Scan(text[i + 1..]); more.(lines := [line] + more.lines)
  }
}
