/** Why the CSV reader refuses a text. */
module CsvErrors {
  import opened Common
  import opened JsText
  import opened Csv
  import opened CsvGrammar

  /** Some grid is spelled so. */
  ghost predicate IsCsv(s: JsString) {
    exists g :: Spells(s, g)
  }

  lemma ScanIsCsv(s: JsString)
    ensures Scan(s).Ok? <==> IsCsv(s)
  {
    if Scan(s).Ok? {
      ScanExact(s, Scan(s).value);
    } else if IsCsv(s) {
      var g :| Spells(s, g);
      ScanExact(s, g);
    }
  }

  /** A refusal on the way stays one, whatever follows. */
  lemma {:induction false} JunkStays(r: Reader, s: JsString, k: JsString)
    requires Run(r, s).Err?
    ensures Run(r, s + k).Err? && Run(r, s) == Err(JunkAfterQuote)
    decreases |s|
  {
    assert (s + k)[0] == s[0] && (|s| > 1 ==> (s + k)[1] == s[1]);
    if Step(r, s).Ok? {
      var (r', n) := Step(r, s).value;
      assert s[n..] != [];
      assert (s + k)[n..] == s[n..] + k;
      JunkStays(r', s[n..], k);
    }
  }

  /** Inside quotes a quote at the end closes them. */
  lemma {:induction false} QuoteCloses(r: Reader, s: JsString)
    requires Run(r, s).Ok? && Run(r, s).value.quoted
    ensures Run(r, s + [34]).Ok? && !Run(r, s + [34]).value.quoted
    decreases |s|
  {
    if s == [] {
      assert s + [34] == [34] && [34][1..] == [];
    } else {
      var (r', n) := Step(r, s).value;
      assert (s + [34])[0] == s[0] && (|s| > 1 ==> (s + [34])[1] == s[1]);
      assert (s + [34])[n..] == s[n..] + [34];
      if s[n..] == [] { assert r'.quoted; }
      QuoteCloses(r', s[n..]);
    }
  }

  /**
   Which complaint it is: too long; a quote left open, if with a quote behind it the text would be accepted; or junk
   behind a quote, if no text that begins so is.
   */
  lemma ErrorsExactly(input: JsString)
    ensures Parse(input) == Err(TooLong) <==> |input| > 200_000
    ensures var s := StripBom(input);
      |input| <= 200_000 && !IsCsv(s) ==>
      && (Parse(input) == Err(UnclosedQuote) <==> IsCsv(s + [34]))
      && (Parse(input) == Err(JunkAfterQuote) <==> forall k :: !IsCsv(s + k))
  {
    var s := StripBom(input);
    ScanIsCsv(s);
    ScanIsCsv(s + [34]);
    if |input| <= 200_000 && !IsCsv(s) {
      if Run(START, s).Ok? {
        QuoteCloses(START, s);
      } else {
        JunkStays(START, s, [34]);
        forall k ensures !IsCsv(s + k) {
          JunkStays(START, s, k);
          ScanIsCsv(s + k);
        }
      }
    }
  }
}
