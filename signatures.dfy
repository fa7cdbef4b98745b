/**
 * The author, committer or tagger stamp of a git object: "Name <email> time",
 * where the time is either Unix seconds followed by a zone offset or a long
 * date ("ddd MMM d HH:mm:ss yyyy zz00").
 */
module Signatures {
  import opened Base
  import opened Text

  /** A DateTime value. The model never looks inside it. */
  datatype When = When(instant: int)

  /**
   * The two conversions into local time, which depend on the machine's time
   * zone and culture: Unix seconds already known to be in range, and the
   * long-date text (which may fail to parse).
   */
  datatype Clock = Clock(fromUnixSeconds: int -> When, fromLongDate: string -> Result<When>)

  /** The Unix seconds of 0001-01-01T00:00:00 and of 9999-12-31T23:59:59, the DateTime range. */
  const MinUnixSeconds: int := -62135596800
  const MaxUnixSeconds: int := 253402300799

  /**
   * Utils.UnixTimeStampToDateTime: adding the seconds to the epoch throws
   * when the result leaves the DateTime range; otherwise the clock converts it.
   */
  function UnixTimeStampToDateTime(clock: Clock, seconds: int): (r: Result<When>)
    ensures r.Ok? ==> r.value == clock.fromUnixSeconds(seconds)
    ensures r.Err? <==> seconds < MinUnixSeconds || MaxUnixSeconds < seconds
  {
    if seconds < MinUnixSeconds || MaxUnixSeconds < seconds then Err(ArgumentOutOfRange)
    else Ok(clock.fromUnixSeconds(seconds))
  }

  datatype Signature = Signature(Name: string, Email: string, When: When) {
    /** IEquatable.Equals: null is never equal; otherwise all three fields agree. */
    predicate Equals(other: Option<Signature>) {
      other.Some? && other.value.Name == Name && other.value.Email == Email && other.value.When == When
    }
  }

  /**
   * Signature.ParseSignature. The character two places after '>' picks the
   * time format: a digit means Unix seconds up to the next blank, anything
   * else a long date running to the end of the line.
   */
  function ParseSignature(line: string, clock: Clock): (r: Result<Signature>)
    ensures Delimit(line).Err? ==> r == Err(Delimit(line).error)
    ensures r.Ok? ==> Delimit(line).Ok? && r.value.Name == Delimit(line).value.0 && r.value.Email == Delimit(line).value.1
    ensures r.Ok? ==> StartsWith(line, r.value.Name) && '<' !in r.value.Name && '>' !in r.value.Name && '>' !in r.value.Email
  {
    var parts :- Delimit(line);
    DelimitFields(line);
    var when :- ParseWhen(parts.2, clock);
    Ok(Signature(parts.0, parts.1, when))
  }

  /**
   * The name, the email and the time text of a stamp. The name is the text
   * before the first '<' less the one character in front of it, the email
   * lies between the first '<' and the first '>', and the time text starts
   * two places after '>'. The substring and index bounds the source relies on
   * become the errors it would throw.
   */
  function Delimit(line: string): (r: Result<(string, string, string)>)
    ensures r.Ok? ==> |r.value.2| > 0
  {
    var emailStart := IndexOfChar(line, '<');
    var emailEnd := IndexOfChar(line, '>');
    if emailStart < 1 then Err(ArgumentOutOfRange)
    else if emailEnd <= emailStart then Err(ArgumentOutOfRange)
    else if |line| <= emailEnd + 2 then Err(IndexOutOfRange)
    else Ok((line[..emailStart - 1], line[emailStart + 1..emailEnd], line[emailEnd + 2..]))
  }

  /**
   * The time of a signature, from the text two places after '>': Unix seconds
   * up to the next blank when it starts with a digit, a long date otherwise.
   */
  function ParseWhen(rest: string, clock: Clock): (r: Result<When>)
    requires |rest| > 0
  {
    if IsDigit(rest[0]) then
      var timestop := IndexOfChar(rest, ' ');
      if timestop < 0 then Err(ArgumentOutOfRange)
      else
        var seconds :- ToInt64(rest[..timestop]);
        UnixTimeStampToDateTime(clock, seconds)
    else
      clock.fromLongDate(rest)
  }

  // ---------------------------------------------------------------------------------
  // Properties

  /** Equals is structural equality, and false for null. */
  lemma EqualsIsEquality(s: Signature, t: Signature)
    ensures s.Equals(Some(t)) <==> s == t
    ensures !s.Equals(None)
  {
  }

  /**
   * Where the parts come from: the line is the name, one character that is
   * not '<', then '<', the email, '>', one more character and the time text;
   * the name holds neither delimiter and the email holds no '>'.
   */
  lemma DelimitFields(line: string)
    requires Delimit(line).Ok?
    ensures var (name, email, rest) := Delimit(line).value;
            var n := |name|;
            && line == name + [line[n]] + "<" + email + ">" + [line[n + |email| + 3]] + rest
            && line[n] != '<' && '<' !in name && '>' !in name && '>' !in email
  {
    var emailStart := IndexOfChar(line, '<');
    var emailEnd := IndexOfChar(line, '>');
    var (name, email, rest) := Delimit(line).value;
    assert name == line[..emailStart][..emailStart - 1];
    assert email == line[..emailEnd][emailStart + 1..];
    assert line[emailStart - 1] in line[..emailStart];
    assert line == line[..emailStart - 1] + [line[emailStart - 1]] + [line[emailStart]]
                 + line[emailStart + 1..emailEnd] + [line[emailEnd]] + [line[emailEnd + 1]] + line[emailEnd + 2..];
  }

  /** The stamp git writes with Unix seconds. */
  function EpochStamp(name: string, email: string, seconds: nat, zone: string): string {
    name + " <" + email + "> " + DecimalString(seconds) + " " + zone
  }

  /** The stamp git writes with a long date. */
  function LongDateStamp(name: string, email: string, date: string): string {
    name + " <" + email + "> " + date
  }

  /** A stamp splits back into its name, its email and its time text. */
  lemma DelimitStamp(name: string, email: string, tail: string)
    requires '<' !in name && '>' !in name && '>' !in email && |tail| > 0
    ensures Delimit(name + " <" + email + "> " + tail) == Ok((name, email, tail))
  {
    var head := name + " <" + email;
    var line := head + "> " + tail;
    StampOpen(name, email, "> " + tail);
    assert line == name + " <" + (email + ("> " + tail));
    StampClose(head, tail);
    var emailStart := IndexOfChar(line, '<');
    var emailEnd := IndexOfChar(line, '>');
    assert emailStart == |name| + 1 && emailEnd == |name| + 2 + |email|;
    assert line[..emailStart - 1] == name;
    assert line[emailStart + 1..emailEnd] == email;
    assert line[emailEnd + 2..] == tail;
  }

  /** The first '<' of `name + " <" + rest` opens the email. */
  lemma StampOpen(name: string, email: string, rest: string)
    requires '<' !in name
    ensures var line := name + " <" + (email + rest);
            IndexOfChar(line, '<') == |name| + 1 && line[..|name|] == name
            && line[|name| + 2..|name| + 2 + |email|] == email
  {
    var line := name + " <" + (email + rest);
    assert line[..|name| + 1] == name + " ";
    IndexOfCharFirst(line, '<', |name| + 1);
    assert line[|name| + 2..] == email + rest;
  }

  /** The first '>' of `head + "> " + tail` closes the email. */
  lemma StampClose(head: string, tail: string)
    requires '>' !in head
    ensures var line := head + "> " + tail;
            IndexOfChar(line, '>') == |head| && line[..|head|] == head && line[|head| + 2..] == tail
  {
    var line := head + "> " + tail;
    assert line[..|head|] == head;
    IndexOfCharFirst(line, '>', |head|);
    assert line[|head| + 2..] == tail;
  }

  /** Unix seconds in the DateTime range, then a blank, read as the clock's time for them. */
  lemma ParseWhenEpoch(seconds: nat, zone: string, clock: Clock)
    requires seconds <= MaxUnixSeconds
    ensures ParseWhen(DecimalString(seconds) + " " + zone, clock) == Ok(clock.fromUnixSeconds(seconds))
  {
    var ds := DecimalString(seconds);
    var tail := ds + " " + zone;
    assert tail[0] == ds[0];
    IndexOfCharFirst(tail, ' ', |ds|) by {
      assert tail[..|ds|] == ds;
      assert forall i :: 0 <= i < |ds| ==> IsDigit(ds[i]);
    }
    assert tail[..|ds|] == ds;
    ParseIntegerDecimal(seconds, Int64Min, Int64Max);
  }

  /**
   * A stamp with Unix seconds in the DateTime range reads back as its name,
   * its email and the clock's time for those seconds; the zone is ignored.
   */
  lemma ParseEpochStamp(name: string, email: string, seconds: nat, zone: string, clock: Clock)
    requires '<' !in name && '>' !in name && '>' !in email
    requires seconds <= MaxUnixSeconds
    ensures ParseSignature(EpochStamp(name, email, seconds, zone), clock)
            == Ok(Signature(name, email, clock.fromUnixSeconds(seconds)))
  {
    var tail := DecimalString(seconds) + " " + zone;
    assert EpochStamp(name, email, seconds, zone) == name + " <" + email + "> " + tail;
    DelimitStamp(name, email, tail);
    ParseWhenEpoch(seconds, zone, clock);
  }

  /**
   * A stamp whose time does not start with a digit reads back as its name and
   * email and whatever the long-date conversion makes of the time, parse
   * errors included.
   */
  lemma ParseLongDateStamp(name: string, email: string, date: string, clock: Clock)
    requires '<' !in name && '>' !in name && '>' !in email
    requires |date| > 0 && !IsDigit(date[0])
    ensures ParseSignature(LongDateStamp(name, email, date), clock)
            == match clock.fromLongDate(date)
               case Ok(w) => Ok(Signature(name, email, w))
               case Err(e) => Err(e)
  {
    DelimitStamp(name, email, date);
  }

  /**
   * Each of these throws: '<' first or missing, '>' missing or before '<',
   * the line ending within two characters of '>'.
   */
  lemma ParseSignatureRejectsDelimiters(line: string, clock: Clock)
    requires || '<' !in line || line[0] == '<' || '>' !in line
             || IndexOfChar(line, '>') < IndexOfChar(line, '<')
             || |line| <= IndexOfChar(line, '>') + 2
    ensures Delimit(line).Err? && ParseSignature(line, clock).Err?
  {
  }

  /**
   * In the Unix-seconds branch, a timestamp with no blank after it, or one
   * that is not a number, throws.
   */
  lemma ParseSignatureRejectsTimestamp(line: string, clock: Clock)
    requires Delimit(line).Ok?
    requires var rest := Delimit(line).value.2;
             IsDigit(rest[0]) && (' ' !in rest || !AllDigits(StripBlanks(rest[..IndexOfChar(rest, ' ')])))
    ensures ParseSignature(line, clock).Err?
  {
    ParseWhenRejects(Delimit(line).value.2, clock);
  }

  /** A time text that starts with a digit but has no blank, or no number before it, is an exception. */
  lemma ParseWhenRejects(rest: string, clock: Clock)
    requires |rest| > 0 && IsDigit(rest[0])
    requires ' ' !in rest || !AllDigits(StripBlanks(rest[..IndexOfChar(rest, ' ')]))
    ensures ParseWhen(rest, clock).Err?
  {
    var k := IndexOfChar(rest, ' ');
    if k >= 0 {
      assert rest[..k][0] == rest[0];
    }
  }

  /** "Patrick Gundlach <gundlach@speedata.de> 1378823654 +0200". */
  lemma GundlachFixture(clock: Clock)
    ensures ParseSignature("Patrick Gundlach <gundlach@speedata.de> 1378823654 +0200", clock)
            == Ok(Signature("Patrick Gundlach", "gundlach@speedata.de", clock.fromUnixSeconds(1378823654)))
  {
    GundlachStamp();
    ParseEpochStamp("Patrick Gundlach", "gundlach@speedata.de", 1378823654, "+0200", clock);
  }

  /** The fixture is a stamp with Unix seconds. */
  lemma GundlachStamp()
    ensures EpochStamp("Patrick Gundlach", "gundlach@speedata.de", 1378823654, "+0200")
            == "Patrick Gundlach <gundlach@speedata.de> 1378823654 +0200"
  {
    GundlachSeconds();
    var s1 := "Patrick Gundlach" + " <";
    assert s1 == "Patrick Gundlach <";
    var s2 := s1 + "gundlach@speedata.de";
    assert s2 == "Patrick Gundlach <gundlach@speedata.de";
    var s3 := s2 + "> ";
    assert s3 == "Patrick Gundlach <gundlach@speedata.de> ";
    var s4 := s3 + "1378823654";
    assert s4 == "Patrick Gundlach <gundlach@speedata.de> 1378823654";
    var s5 := s4 + " ";
    assert s5 == "Patrick Gundlach <gundlach@speedata.de> 1378823654 ";
    assert s5 + "+0200" == "Patrick Gundlach <gundlach@speedata.de> 1378823654 +0200";
  }

  /** The decimal text of the fixture's seconds, one digit at a time. */
  lemma GundlachSeconds()
    ensures DecimalString(1378823654) == "1378823654"
  {
    assert DecimalString(1) == "1";
    assert DecimalString(13) == "13";
    assert DecimalString(137) == "137";
    assert DecimalString(1378) == "1378";
    assert DecimalString(13788) == "13788";
    assert DecimalString(137882) == "137882";
    assert DecimalString(1378823) == "1378823";
    assert DecimalString(13788236) == "13788236";
    assert DecimalString(137882365) == "137882365";
  }
}
