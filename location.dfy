/** Emote locations of chat_downloader: the text `"start-end"` (inclusive end) read with
    `re.match(r'(\d+)-(\d+)', loc)`, which needs the pattern only at the front of the string. */
module Location {
  import opened Wrappers
  import PyStr

  /** The half-open character range `[start, end)` a location covers. */
  datatype Span = Span(start: nat, end: nat)

  /** One placed emote: the range it covers in the message and its id and name, the tuple
      `(start, end + 1, emote_id, emote_name)` of the source. */
  datatype EmoteRange = EmoteRange(start: nat, end: nat, id: string, name: string)

  /** A location as the emote walk reads it: `"s-e"` gives `[s, e + 1)`; anything that does not start
      with digits, a dash and digits gives nothing. Greedy `\d+` takes the whole leading digit run. */
  function ParseLocation(loc: string): (r: Option<Span>)
    ensures r.Some? ==> r.value.end >= 1
  {
    var n1 := PyStr.DigitRun(loc);
    if n1 == 0 || n1 == |loc| || loc[n1] != '-' then None
    else ParseEnd(PyStr.DecimalValue(loc[..n1]), loc[n1 + 1..])
  }

  /** The second half of a location, after `start` and the dash have been read. */
  function ParseEnd(start: nat, rest: string): (r: Option<Span>)
    ensures r.Some? ==> r.value.end >= 1
  {
    var n2 := PyStr.DigitRun(rest);
    if n2 == 0 then None else Some(Span(start, PyStr.DecimalValue(rest[..n2]) + 1))
  }

  /** A greedy digit run ends exactly where the digits stop. */
  lemma DigitRunAt(s: string, n: nat)
    requires n <= |s| && PyStr.AllDigits(s[..n]) && (n == |s| || !PyStr.IsDigit(s[n]))
    ensures PyStr.DigitRun(s) == n
  {
  }

  /** Digits at `[0, i)`, a dash at `i` and digits at `[i + 1, j)` ending at a non-digit or the end of
      the string are read as the range those digits spell, whatever follows (leading zeros included:
      `"007-9"` is `[7, 10)`). With LocationShape this says exactly which locations are accepted. */
  lemma LocationAt(loc: string, i: nat, j: nat)
    requires 0 < i && i + 1 < j <= |loc| && loc[i] == '-'
    requires PyStr.AllDigits(loc[..i]) && PyStr.AllDigits(loc[i + 1..j])
    requires j == |loc| || !PyStr.IsDigit(loc[j])
    ensures ParseLocation(loc) == Some(Span(PyStr.DecimalValue(loc[..i]), PyStr.DecimalValue(loc[i + 1..j]) + 1))
  {
    DigitRunAt(loc, i);
    var rest := loc[i + 1..];
    assert rest[..j - i - 1] == loc[i + 1..j];
    assert j < |loc| ==> rest[j - i - 1] == loc[j];
    DigitRunAt(rest, j - i - 1);
  }

  /** Formatting a range the way chat_downloader writes it and reading it back gives the range. */
  lemma LocationRoundTrip(a: nat, b: nat, rest: string)
    requires rest == [] || !PyStr.IsDigit(rest[0])
    ensures ParseLocation(PyStr.Decimal(a) + "-" + PyStr.Decimal(b) + rest) == Some(Span(a, b + 1))
  {
    var d1, d2 := PyStr.Decimal(a), PyStr.Decimal(b);
    var loc := d1 + "-" + d2 + rest;
    var i, j := |d1|, |d1| + 1 + |d2|;
    assert loc[..i] == d1 && loc[i] == '-' && loc[i + 1..j] == d2;
    assert j < |loc| ==> loc[j] == rest[0];
    LocationAt(loc, i, j);
    PyStr.DecimalRoundTrip(a);
    PyStr.DecimalRoundTrip(b);
  }

  /** Every accepted location has the shape digits, dash, digits at its front, followed by the end of the
      string or a non-digit, and denotes the range those digits spell. */
  lemma LocationShape(loc: string) returns (i: nat, j: nat)
    requires ParseLocation(loc).Some?
    ensures 0 < i && i + 1 < j <= |loc| && loc[i] == '-'
    ensures PyStr.AllDigits(loc[..i]) && PyStr.AllDigits(loc[i + 1..j])
    ensures j == |loc| || !PyStr.IsDigit(loc[j])
    ensures ParseLocation(loc) == Some(Span(PyStr.DecimalValue(loc[..i]), PyStr.DecimalValue(loc[i + 1..j]) + 1))
  {
    i := PyStr.DigitRun(loc);
    var rest := loc[i + 1..];
    var n2 := PyStr.DigitRun(rest);
    j := i + 1 + n2;
    assert loc[i + 1..j] == rest[..n2];
    if j < |loc| {
      assert loc[j] == rest[n2];
    }
  }

  /** A location that does not start with a digit is skipped. */
  lemma LocationNeedsLeadingDigit(loc: string)
    requires loc == [] || !PyStr.IsDigit(loc[0])
    ensures ParseLocation(loc) == None
  {
  }
}
