/**
 * The behaviour the test suite pins down, stated on its own fixtures: every
 * fixture token is classified with its category, the supported names hold the
 * ones the suite asks for, and the five redaction cases give the expected text.
 */
module Examples {
  import opened Chars
  import opened Patterns
  import opened Shapes
  import opened Classifier
  import opened Spans
  import opened Redaction

  // ---- getTokenTypes ----

  const ValidSsn: seq<string> := [
    "123-45-6789", "544-45-6789", "001815293", "159-12-9273", "252-65-1954", "429-89-5729",
    "575 42 8931", "575 42-8931", "575-42 8931", "575 428931", "57542-8931"
  ]

  /** Each SSN fixture has the SSN layout, with the gaps it is written with. */
  lemma ValidSsnMatches(k: nat)
    requires k < |ValidSsn|
    ensures Matches(SSN, ValidSsn[k])
  {
    var t := ValidSsn[k];
    if k == 2 {
      SsnLayoutMatches(t, 0, 0);
    } else if k == 9 {
      SsnLayoutMatches(t, 1, 0);
    } else if k == 10 {
      SsnLayoutMatches(t, 0, 1);
    } else {
      SsnLayoutMatches(t, 1, 1);
    }
  }

  /** Every SSN fixture is classified with SSN among its types. */
  lemma ValidSsnClassified()
    ensures forall k | 0 <= k < |ValidSsn| :: "SSN" in TokenTypes(ValidSsn[k])
  {
    forall k | 0 <= k < |ValidSsn| ensures "SSN" in TokenTypes(ValidSsn[k]) {
      ValidSsnMatches(k);
    }
  }

  const ValidPhone: seq<string> := [
    "555-555-5555", "(555) 555 5555", "(555)5555555", "(555)5555555",
    "555 555 5555", "555 555-5555", "555-555 5555", "(555)-555-5555"
  ]

  /** Each phone fixture has the phone layout, with or without parentheses and gaps. */
  lemma ValidPhoneMatches(k: nat)
    requires k < |ValidPhone|
    ensures Matches(PHONE, ValidPhone[k])
  {
    if k < 4 {
      FirstPhonesMatch(k);
    } else {
      LastPhonesMatch(k);
    }
  }

  lemma FirstPhonesMatch(k: nat)
    requires k < 4
    ensures Matches(PHONE, ValidPhone[k])
  {
    var t := ValidPhone[k];
    if k == 0 {
      PhoneLayoutMatches(t, false, 1, 1);
    } else if k == 1 {
      PhoneLayoutMatches(t, true, 1, 1);
    } else {
      PhoneLayoutMatches(t, true, 0, 0);
    }
  }

  lemma LastPhonesMatch(k: nat)
    requires 4 <= k < |ValidPhone|
    ensures Matches(PHONE, ValidPhone[k])
  {
    var t := ValidPhone[k];
    if k < 7 {
      PhoneLayoutMatches(t, false, 1, 1);
    } else {
      PhoneLayoutMatches(t, true, 1, 1);
    }
  }

  /** Every phone fixture is classified with PHONE among its types. */
  lemma ValidPhoneClassified()
    ensures forall k | 0 <= k < |ValidPhone| :: "PHONE" in TokenTypes(ValidPhone[k])
  {
    forall k | 0 <= k < |ValidPhone| ensures "PHONE" in TokenTypes(ValidPhone[k]) {
      ValidPhoneMatches(k);
    }
  }

  const ValidDate: seq<string> := [
    "1/1/2002", "01/01/2002", "1.1.2002", "01.01.2002", "1 1 2002",
    "01 01 2002", "01/01 2002", "1/1/02", "01/01/02"
  ]

  /** Each date fixture has the date layout, with the field widths it is written with. */
  lemma ValidDateMatches(k: nat)
    requires k < |ValidDate|
    ensures Matches(DATE, ValidDate[k])
  {
    var t := ValidDate[k];
    if k == 0 || k == 2 || k == 4 {
      DateLayoutMatches(t, 1, 1, 4);
    } else if k == 7 {
      DateLayoutMatches(t, 1, 1, 2);
    } else if k == 8 {
      DateLayoutMatches(t, 2, 2, 2);
    } else {
      DateLayoutMatches(t, 2, 2, 4);
    }
  }

  /** Every date fixture is classified with DATE among its types. */
  lemma ValidDateClassified()
    ensures forall k | 0 <= k < |ValidDate| :: "DATE" in TokenTypes(ValidDate[k])
  {
    forall k | 0 <= k < |ValidDate| ensures "DATE" in TokenTypes(ValidDate[k]) {
      ValidDateMatches(k);
    }
  }

  const ValidEmail: seq<string> := [
    "helloworld@gmail.com", "anything@outlook.com", "student@scu.edu", "someone@yahoo.com"
  ]

  /** Each email fixture is a local part, '@', one domain label, '.' and a top-level label. */
  lemma ValidEmailMatches(k: nat)
    requires k < |ValidEmail|
    ensures Matches(EMAIL, ValidEmail[k])
  {
    if k == 0 {
      EmailLayoutMatches("helloworld@gmail.com", 10, 16);
    } else if k == 1 {
      EmailLayoutMatches("anything@outlook.com", 8, 16);
    } else if k == 2 {
      EmailLayoutMatches("student@scu.edu", 7, 11);
    } else {
      EmailLayoutMatches("someone@yahoo.com", 7, 13);
    }
  }

  /** Every email fixture is classified with EMAIL among its types. */
  lemma ValidEmailClassified()
    ensures forall k | 0 <= k < |ValidEmail| :: "EMAIL" in TokenTypes(ValidEmail[k])
  {
    forall k | 0 <= k < |ValidEmail| ensures "EMAIL" in TokenTypes(ValidEmail[k]) {
      ValidEmailMatches(k);
    }
  }

  const ValidVin: seq<string> := [
    "4S3BK4358V7310025", "JH4KA2650HC000268", "1FMZK04185GA30815", "3D7KU28C04G254161", "WBAVB13506PT22180"
  ]

  /** Each VIN fixture is seventeen characters of the VIN alphabet. */
  lemma ValidVinMatches(k: nat)
    requires k < |ValidVin|
    ensures Matches(VIN, ValidVin[k])
  {
    if k == 0 {
      RunEndSkip(VinChar, "4S3BK4358V7310025", 0, 17);
    } else if k == 1 {
      RunEndSkip(VinChar, "JH4KA2650HC000268", 0, 17);
    } else if k == 2 {
      RunEndSkip(VinChar, "1FMZK04185GA30815", 0, 17);
    } else if k == 3 {
      RunEndSkip(VinChar, "3D7KU28C04G254161", 0, 17);
    } else {
      RunEndSkip(VinChar, "WBAVB13506PT22180", 0, 17);
    }
  }

  /** Every VIN fixture is classified with VIN among its types. */
  lemma ValidVinClassified()
    ensures forall k | 0 <= k < |ValidVin| :: "VIN" in TokenTypes(ValidVin[k])
  {
    forall k | 0 <= k < |ValidVin| ensures "VIN" in TokenTypes(ValidVin[k]) {
      ValidVinMatches(k);
    }
  }

  // ---- getSupportedTypes ----

  /** The supported names include the ones the suite expects. */
  lemma SupportedTypesListed()
    ensures "SSN" in SupportedTypes() && "PHONE" in SupportedTypes() && "EMAIL" in SupportedTypes()
  {
    assert Name(SSN) == "SSN" && Name(PHONE) == "PHONE" && Name(EMAIL) == "EMAIL";
  }

  // ---- redactString ----

  /** The empty text redacts to the empty text. */
  lemma RedactsEmptyText()
    ensures |Redact("", None)| == 0
  {
    RedactEmpty(None);
  }

  /** The text of the single-occurrence redaction test. */
  const Text1 := "Hello world (123)456-7890"

  /** Where the characters of the first redaction text sit. */
  lemma Text1Chars()
    ensures |Text1| == 25
    ensures forall p | 0 <= p < 12 :: !IsDigit(Text1[p]) && Text1[p] != '('
    ensures forall m | 0 <= m < 25 :: Text1[m] != '@'
    ensures IsSpace(Text1[11]) && Text1[12] == '(' && Text1[16] == ')' && Text1[20] == '-'
    ensures forall m | 13 <= m < 16 || 17 <= m < 20 || 21 <= m < 25 :: IsDigit(Text1[m])
  {
  }

  /** The digit groups of the first redaction text. */
  lemma Text1Blocks()
    ensures forall p | 13 <= p <= 16 :: RunEnd(Digit, Text1, p) == 16
    ensures forall p | 17 <= p <= 20 :: RunEnd(Digit, Text1, p) == 20
    ensures forall p | 21 <= p <= 25 :: RunEnd(Digit, Text1, p) == 25
  {
    Text1Chars();
    ClassBlock(Digit, Text1, 13, 16);
    ClassBlock(Digit, Text1, 17, 20);
    ClassBlock(Digit, Text1, 21, 25);
  }

  /** The first redaction text holds no SSN: no digit group there is followed by the next group. */
  lemma Text1NoSsn()
    ensures Scan(SSN, Text1, 0) == []
  {
    Text1Chars();
    Text1Blocks();
    forall p | 0 <= p < 25 ensures MatchEnd(SSN, Text1, p) == None {
      if p < 13 || p == 16 || p == 20 {
        if MatchEnd(SSN, Text1, p).Some? { MatchStartsRight(SSN, Text1, p); }
      }
    }
    ScanSkip(SSN, Text1, 0, 25);
  }

  /** The first redaction text holds no date: no digit group there is followed by a date separator. */
  lemma Text1NoDate()
    ensures Scan(DATE, Text1, 0) == []
  {
    Text1Chars();
    Text1Blocks();
    forall p | 0 <= p < 25 ensures MatchEnd(DATE, Text1, p) == None {
      if p < 13 || p == 16 || p == 20 {
        if MatchEnd(DATE, Text1, p).Some? { MatchStartsRight(DATE, Text1, p); }
      }
    }
    ScanSkip(DATE, Text1, 0, 25);
  }

  /** The first redaction text holds no email address: it has no '@'. */
  lemma Text1NoEmail()
    ensures Scan(EMAIL, Text1, 0) == []
  {
    Text1Chars();
    forall p | 0 <= p < 25 ensures MatchEnd(EMAIL, Text1, p) == None {
      EmailBlocked(Text1, p, 25);
    }
    ScanSkip(EMAIL, Text1, 0, 25);
  }

  /** The first redaction text holds no VIN: no seventeen VIN characters in a row. */
  lemma Text1NoVin()
    ensures Scan(VIN, Text1, 0) == []
  {
    Text1Chars();
    forall p | 0 <= p < 25 ensures MatchEnd(VIN, Text1, p) == None {
      if p <= 11 {
        VinBlocked(Text1, p, 11);
      } else if p == 12 {
        VinBlocked(Text1, p, 12);
      }
    }
    ScanSkip(VIN, Text1, 0, 25);
  }

  /** The parenthesised phone number starts at position 12 and runs to the end. */
  lemma Text1PhoneAt12()
    ensures MatchEnd(PHONE, Text1, 12) == Some(25)
  {
    Text1Chars();
    Text1Blocks();
    assert AreaCodeEnd(Text1, 12) == Some(17);
    assert SkipGap(Text1, 17) == 17;
    assert SkipGap(Text1, 20) == 21;
  }

  /** Scanning for phone numbers finds exactly the one at the end. */
  lemma Text1Phone()
    ensures Scan(PHONE, Text1, 0) == [Span(12, 25)]
  {
    Text1Chars();
    ScanPastNoStart(PHONE, Text1, 0, 12);
    Text1PhoneAt12();
  }

  /** Over all categories, only the phone number is found. */
  lemma Text1Collect()
    ensures Collect(Registry, None, Text1) == [Span(12, 25)]
  {
    CollectRegistry(None, Text1);
    Text1NoSsn();
    Text1Phone();
    Text1NoDate();
    Text1NoEmail();
    Text1NoVin();
  }

  /** Rebuilding the first text around the phone number. */
  lemma Text1Rebuilt()
    ensures Rebuild(Text1, [Span(12, 25)], 0) == "Hello world [REDACTED]"
  {
    assert Text1[0..12] == "Hello world ";
  }

  /** A phone number inside text is replaced by one placeholder; the text before it is kept. */
  lemma RedactsEmbeddedPhone()
    ensures Redact(Text1, None) == "Hello world [REDACTED]"
  {
    Text1Collect();
    NormalizeSingle(Span(12, 25));
    Text1Rebuilt();
  }

  /** The text of the several-categories redaction test, and the start of the next two tests' text. */
  const Text2 := "Hello world 1234567890"

  /** Where the characters of the second redaction text sit. */
  lemma Text2Chars()
    ensures |Text2| == 22
    ensures forall p | 0 <= p < 12 :: !IsDigit(Text2[p]) && Text2[p] != '('
    ensures forall m | 0 <= m < 22 :: Text2[m] != '@'
    ensures IsSpace(Text2[11])
    ensures forall m | 12 <= m < 22 :: IsDigit(Text2[m])
  {
  }

  /** The ten-digit run at the end of the second redaction text. */
  lemma Text2Blocks()
    ensures forall p | 12 <= p <= 22 :: RunEnd(Digit, Text2, p) == 22
  {
    Text2Chars();
    ClassBlock(Digit, Text2, 12, 22);
  }

  /** The first nine digits of the run form an SSN; the scan resumes behind them and finds no other. */
  lemma Text2Ssn()
    ensures Scan(SSN, Text2, 0) == [Span(12, 21)]
  {
    Text2Chars();
    Text2Blocks();
    ScanPastNoStart(SSN, Text2, 0, 12);
    assert MatchEnd(SSN, Text2, 12) == Some(21);
    assert MatchEnd(SSN, Text2, 21) == None;
  }

  /** The ten digits of the run form a phone number. */
  lemma Text2Phone()
    ensures Scan(PHONE, Text2, 0) == [Span(12, 22)]
  {
    Text2Chars();
    Text2Blocks();
    ScanPastNoStart(PHONE, Text2, 0, 12);
    assert AreaCodeEnd(Text2, 12) == Some(15);
    assert MatchEnd(PHONE, Text2, 12) == Some(22);
  }

  /** The run is not followed by a date separator, so no date is found. */
  lemma Text2NoDate()
    ensures Scan(DATE, Text2, 0) == []
  {
    Text2Chars();
    Text2Blocks();
    forall p | 0 <= p < 22 ensures MatchEnd(DATE, Text2, p) == None {
      if p < 12 {
        if MatchEnd(DATE, Text2, p).Some? { MatchStartsRight(DATE, Text2, p); }
      }
    }
    ScanSkip(DATE, Text2, 0, 22);
  }

  /** The second redaction text has no '@', so no email address is found. */
  lemma Text2NoEmail()
    ensures Scan(EMAIL, Text2, 0) == []
  {
    Text2Chars();
    forall p | 0 <= p < 22 ensures MatchEnd(EMAIL, Text2, p) == None {
      EmailBlocked(Text2, p, 22);
    }
    ScanSkip(EMAIL, Text2, 0, 22);
  }

  /** No seventeen VIN characters in a row, so no VIN is found. */
  lemma Text2NoVin()
    ensures Scan(VIN, Text2, 0) == []
  {
    Text2Chars();
    forall p | 0 <= p < 22 ensures MatchEnd(VIN, Text2, p) == None {
      if p <= 11 {
        VinBlocked(Text2, p, 11);
      }
    }
    ScanSkip(VIN, Text2, 0, 22);
  }

  /** Over all categories, the SSN and the phone number are found, both starting at position 12. */
  lemma Text2Collect()
    ensures Collect(Registry, None, Text2) == [Span(12, 21), Span(12, 22)]
  {
    CollectRegistry(None, Text2);
    Text2Ssn();
    Text2Phone();
    Text2NoDate();
    Text2NoEmail();
    Text2NoVin();
  }

  /** The two overlapping spans merge into one. */
  lemma Text2Normal()
    ensures Normalize([Span(12, 21), Span(12, 22)]) == [Span(12, 22)]
  {
    assert SortByStart([Span(12, 21), Span(12, 22)]) == [Span(12, 21), Span(12, 22)];
  }

  /** Rebuilding the second text around the merged span. */
  lemma Text2Rebuilt()
    ensures Rebuild(Text2, [Span(12, 22)], 0) == "Hello world [REDACTED]"
  {
    assert Text2[0..12] == "Hello world ";
  }

  /** A ten-digit run that is both an SSN and a phone number gets a single placeholder. */
  lemma RedactsDigitRunOnce()
    ensures Redact(Text2, None) == "Hello world [REDACTED]"
  {
    Text2Collect();
    Text2Normal();
    Text2Rebuilt();
  }

  /** The text of the last two redaction tests, written in two parts. */
  const Text3 := Text2 + " and my email is hello@world.com"

  /** Where the characters of the first part of the third redaction text sit. */
  lemma Text3Head()
    ensures |Text3| == 54
    ensures forall p | 0 <= p < 12 :: !IsDigit(Text3[p]) && Text3[p] != '(' && Text3[p] != '@'
    ensures forall m | 12 <= m < 22 :: IsDigit(Text3[m])
    ensures IsSpace(Text3[11]) && !IsDigit(Text3[22])
  {
  }

  /** Behind the digit run, the third text has no digit, no '(' and no VIN character. */
  lemma Text3Words()
    ensures forall p | 22 <= p < 54 :: !IsDigit(Text3[p]) && Text3[p] != '(' && !InClass(Text3[p], VinChar)
  {
  }

  /** The spaces before the email address, and the absence of '@' before it. */
  lemma Text3Spaces()
    ensures forall p | 0 <= p < 44 :: Text3[p] != '@'
    ensures IsSpace(Text3[11]) && IsSpace(Text3[22]) && IsSpace(Text3[26]) && IsSpace(Text3[29])
    ensures IsSpace(Text3[35]) && IsSpace(Text3[38])
  {
  }

  /** The parts of the email address at the end of the third text. */
  lemma Text3AddressChars()
    ensures Text3[44] == '@' && Text3[50] == '.'
    ensures forall m | 39 <= m < 44 :: InClass(Text3[m], LocalChar)
    ensures forall m | 45 <= m < 50 :: InClass(Text3[m], LabelChar)
    ensures forall m | 51 <= m < 54 :: IsLetter(Text3[m])
  {
  }

  /** The ten-digit run of the third text ends at the space behind it. */
  lemma Text3DigitBlock()
    ensures forall p | 12 <= p <= 22 :: RunEnd(Digit, Text3, p) == 22
  {
    Text3Head();
    ClassBlock(Digit, Text3, 12, 22);
  }

  /** An SSN starts at position 12 and none where the scan resumes. */
  lemma Text3SsnAt12()
    ensures MatchEnd(SSN, Text3, 12) == Some(21) && MatchEnd(SSN, Text3, 21) == None
  {
    Text3Head();
    Text3DigitBlock();
  }

  /** Scanning the third text for SSNs finds the first nine digits of the run. */
  lemma Text3Ssn()
    ensures Scan(SSN, Text3, 0) == [Span(12, 21)]
  {
    Text3Head();
    Text3Words();
    ScanPastNoStart(SSN, Text3, 0, 12);
    Text3SsnAt12();
    ScanPastNoStart(SSN, Text3, 22, 54);
  }

  /** Scanning the third text for phone numbers finds the ten-digit run. */
  lemma Text3Phone()
    ensures Scan(PHONE, Text3, 0) == [Span(12, 22)]
  {
    Text3Head();
    Text3Words();
    Text3DigitBlock();
    ScanPastNoStart(PHONE, Text3, 0, 12);
    assert AreaCodeEnd(Text3, 12) == Some(15);
    assert MatchEnd(PHONE, Text3, 12) == Some(22);
    ScanPastNoStart(PHONE, Text3, 22, 54);
  }

  /** The last two digits of the run and the space form a date field, but no second field follows. */
  lemma Text3NoDate()
    ensures Scan(DATE, Text3, 0) == []
  {
    Text3Head();
    Text3Words();
    Text3DigitBlock();
    forall p | 0 <= p < 54 ensures MatchEnd(DATE, Text3, p) == None {
      if p < 12 || 22 <= p {
        if MatchEnd(DATE, Text3, p).Some? { MatchStartsRight(DATE, Text3, p); }
      } else if 20 <= p {
        assert DateFieldEnd(Text3, p) == Some(23);
        assert RunEnd(Digit, Text3, 23) == 23;
      }
    }
    ScanSkip(DATE, Text3, 0, 54);
  }

  /** The email address starts at position 39 and runs to the end. */
  lemma Text3Address()
    ensures MatchEnd(EMAIL, Text3, 39) == Some(54)
  {
    Text3AddressChars();
    ClassBlock(LocalChar, Text3, 39, 44);
    ClassBlock(LabelChar, Text3, 45, 50);
    ClassBlock(LabelChar, Text3, 51, 54);
    ClassBlock(Letter, Text3, 51, 54);
    assert DomainEnd(Text3, 51) == None;
  }

  /** Scanning the third text for email addresses finds exactly the one at the end. */
  lemma Text3Email()
    ensures Scan(EMAIL, Text3, 0) == [Span(39, 54)]
  {
    Text3Spaces();
    forall p | 0 <= p < 39 ensures MatchEnd(EMAIL, Text3, p) == None {
      var w := if p <= 11 then 11 else if p <= 22 then 22 else if p <= 26 then 26
        else if p <= 29 then 29 else if p <= 35 then 35 else 38;
      EmailBlocked(Text3, p, w);
    }
    ScanSkip(EMAIL, Text3, 0, 39);
    Text3Address();
  }

  /** No seventeen VIN characters in a row in the third text. */
  lemma Text3NoVin()
    ensures Scan(VIN, Text3, 0) == []
  {
    Text3Head();
    Text3Words();
    forall p | 0 <= p < 54 ensures MatchEnd(VIN, Text3, p) == None {
      if p <= 11 {
        VinBlocked(Text3, p, 11);
      } else if p < 22 {
        VinBlocked(Text3, p, 22);
      } else {
        VinBlocked(Text3, p, p);
      }
    }
    ScanSkip(VIN, Text3, 0, 54);
  }

  /** Over all categories: the SSN, the phone number and the email address. */
  lemma Text3Collect()
    ensures Collect(Registry, None, Text3) == [Span(12, 21), Span(12, 22), Span(39, 54)]
  {
    Text3Ssn();
    Text3Phone();
    Text3NoDate();
    Text3Email();
    Text3NoVin();
    CollectRegistry(None, Text3);
  }

  /** Restricted to EMAIL: only the email address. */
  lemma Text3CollectEmail()
    ensures Collect(Registry, Some(["EMAIL"]), Text3) == [Span(39, 54)]
  {
    Text3Email();
    CollectRegistry(Some(["EMAIL"]), Text3);
    assert !Eligible(Some(["EMAIL"]), SSN) && !Eligible(Some(["EMAIL"]), PHONE) && !Eligible(Some(["EMAIL"]), DATE);
    assert Eligible(Some(["EMAIL"]), EMAIL) && !Eligible(Some(["EMAIL"]), VIN);
  }

  /** The SSN and the phone number merge; the email address stays apart. */
  lemma Text3Normal()
    ensures Normalize([Span(12, 21), Span(12, 22), Span(39, 54)]) == [Span(12, 22), Span(39, 54)]
  {
    assert SortByStart([Span(12, 21), Span(12, 22), Span(39, 54)]) == [Span(12, 21), Span(12, 22), Span(39, 54)];
  }

  /** Rebuilding the third text around the merged spans, and around the email address alone. */
  lemma Text3Rebuilt()
    ensures Rebuild(Text3, [Span(12, 22), Span(39, 54)], 0) == "Hello world " + Placeholder + " and my email is " + Placeholder
    ensures Rebuild(Text3, [Span(39, 54)], 0) == Text2 + " and my email is " + Placeholder
  {
    assert Text3[0..12] == "Hello world ";
    assert Text3[22..39] == " and my email is ";
    assert Text3[0..39] == Text2 + " and my email is ";
  }

  /** The same text as a single literal. */
  const Lit3 := "Hello world 1234567890 and my email is hello@world.com"

  /** The third text, split where its digit run ends. */
  lemma Lit3Head()
    ensures Lit3[..22] == Text2
  {
  }
  lemma Lit3Tail()
    ensures Lit3[22..] == " and my email is hello@world.com"
  {
  }

  /** The third text, written as two parts, is the text of the test. */
  lemma Text3Literal()
    ensures Text3 == "Hello world 1234567890 and my email is hello@world.com"
  {
    Lit3Head();
    Lit3Tail();
    assert Lit3 == Lit3[..22] + Lit3[22..];
  }

  /** The expected outputs, written as the parts the rebuild produces. */
  lemma Text3Expected()
    ensures "Hello world " + Placeholder + " and my email is " + Placeholder == "Hello world [REDACTED] and my email is [REDACTED]"
  {
  }

  lemma Text3ExpectedEmail()
    ensures Text2 + " and my email is " + Placeholder == "Hello world 1234567890 and my email is [REDACTED]"
  {
  }

  /** Two separate occurrences get two placeholders; the text between them is kept. */
  lemma RedactsTwoOccurrences()
    ensures Redact("Hello world 1234567890 and my email is hello@world.com", None) == "Hello world [REDACTED] and my email is [REDACTED]"
  {
    Text3Literal();
    Text3Collect();
    Text3Normal();
    Text3Rebuilt();
    Text3Expected();
  }

  /** Restricted to EMAIL, the address is replaced and the digit run is kept. */
  lemma RedactsOnlyRequested()
    ensures Redact("Hello world 1234567890 and my email is hello@world.com", Some(["EMAIL"])) == "Hello world 1234567890 and my email is [REDACTED]"
  {
    Text3Literal();
    Text3CollectEmail();
    NormalizeSingle(Span(39, 54));
    Text3Rebuilt();
    Text3ExpectedEmail();
  }
}
