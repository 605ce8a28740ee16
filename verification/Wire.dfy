/** A buffered connection: a byte sequence with a cursor, read byte by byte and line by line. */
module Wire {
  import opened Wrappers
  import opened Text

  /** `Closed` is the peer hanging up, whether or not in the middle of something. */
  datatype WireError = Closed | LineTooLong | EmptySize | BadSize | MissingCRLF | Malformed

  /** A line's text without its terminator, and how many bytes it took. */
  datatype TextLine = TextLine(text: string, used: nat)

  /** The first line of `w`: at most `limit` bytes up to its newline, less one trailing '\r'. */
  function LineOf(w: string, limit: nat): (r: Result<TextLine, WireError>)
    ensures r.Ok? ==> 0 < r.value.used <= |w|
  {
    var i := FirstOf(w, "\n", 0);
    if i < |w| && i <= limit then Ok(TextLine(TrimSuffix(w[..i], "\r"), i + 1))
    else if |w| > limit then Err(LineTooLong)
    else Err(Closed)
  }

  /** A line as it is sent: its text, an optional '\r', and the newline. */
  datatype Line = Line(text: string, cr: bool) {
    function Bytes(): string {
      text + (if cr then "\r" else "") + "\n"
    }

    /** The line fits the limit, and reading it back gives `text`. */
    predicate Fits(limit: nat) {
      && NoneOf(text, "\n")
      && |text| + (if cr then 1 else 0) <= limit
      && (!cr ==> !HasSuffix(text, "\r"))
    }
  }

  lemma FirstOfIs(w: string, c: char, i: nat)
    requires i < |w| && w[i] == c && forall k :: 0 <= k < i ==> w[k] != c
    ensures FirstOf(w, [c], 0) == i
  {
  }

  /** Reading back a line that was sent gives its text and leaves the cursor right after it. */
  lemma LineRoundTrip(l: Line, rest: string, limit: nat)
    requires l.Fits(limit)
    ensures LineOf(l.Bytes() + rest, limit) == Ok(TextLine(l.text, |l.Bytes()|))
  {
    var w := l.Bytes() + rest;
    var body := l.text + (if l.cr then "\r" else "");
    var i := |body|;
    assert w == body + ("\n" + rest);
    assert forall k :: 0 <= k < i ==> w[k] == body[k];
    FirstOfIs(w, '\n', i);
    assert w[..i] == body;
    assert TrimSuffix(body, "\r") == l.text by {
      if l.cr {
        assert body[|l.text|..] == "\r" && body[..|l.text|] == l.text;
      }
    }
  }

  /** Whatever is read as a line was sent as one. */
  lemma LineWasSent(w: string, limit: nat) returns (l: Line)
    requires LineOf(w, limit).Ok?
    ensures l.Fits(limit) && l.text == LineOf(w, limit).value.text
    ensures LineOf(w, limit).value.used == |l.Bytes()| <= |w| && w[..|l.Bytes()|] == l.Bytes()
  {
    var i := FirstOf(w, "\n", 0);
    var body := w[..i];
    var text := TrimSuffix(body, "\r");
    l := Line(text, HasSuffix(body, "\r"));
    assert body == text + (if l.cr then "\r" else "");
    assert w[..i + 1] == body + "\n";
  }

  class Reader {
    const data: string
    var pos: nat

    ghost predicate Valid()
      reads this
    {
      pos <= |data|
    }

    /** The bytes not yet consumed. */
    ghost function Rest(): string
      reads this
      requires Valid()
    {
      data[pos..]
    }

    constructor (data: string)
      ensures Valid() && Rest() == data
    {
      this.data, pos := data, 0;
    }

    method ReadByte() returns (res: Result<char, WireError>)
      requires Valid()
      modifies this
      ensures Valid()
      ensures if old(Rest()) == "" then res == Err(Closed) && Rest() == ""
              else res == Ok(old(Rest())[0]) && Rest() == old(Rest())[1..]
    {
      if pos == |data| {
        return Err(Closed);
      }
      res := Ok(data[pos]);
      pos := pos + 1;
    }

    /** Exactly `n` bytes, or nothing but the end of the connection. */
    method ReadFull(n: nat) returns (res: Result<string, WireError>)
      requires Valid()
      modifies this
      ensures Valid()
      ensures if n <= |old(Rest())| then res == Ok(old(Rest())[..n]) && Rest() == old(Rest())[n..]
              else res == Err(Closed) && Rest() == ""
    {
      if n > |data| - pos {
        pos := |data|;
        return Err(Closed);
      }
      assert data[pos..pos + n] == Rest()[..n];
      res := Ok(data[pos..pos + n]);
      pos := pos + n;
    }

    method ReadLine(limit: nat) returns (res: Result<string, WireError>)
      requires Valid()
      modifies this
      ensures Valid()
      ensures match LineOf(old(Rest()), limit)
              case Ok(line) => res == Ok(line.text) && line.used <= |old(Rest())| && Rest() == old(Rest())[line.used..]
              case Err(e) => res == Err(e)
    {
      ghost var w := Rest();
      var sb := "";
      while true
        invariant Valid()
        invariant sb <= w && Rest() == w[|sb|..]
        invariant NoneOf(sb, "\n") && |sb| <= limit
        decreases |w| - |sb|
      {
        var b := ReadByte();
        if b.Err? {
          assert FirstOf(w, "\n", 0) == |w|;
          return Err(b.error);
        }
        if b.value == '\n' {
          FirstOfIs(w, '\n', |sb|);
          assert w[..|sb|] == sb;
          return Ok(TrimSuffix(sb, "\r"));
        }
        if |sb| >= limit {
          return Err(LineTooLong);
        }
        sb := sb + [b.value];
      }
    }
  }
}
