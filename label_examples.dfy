/** Worked examples of `camelPad` (index.js:11-20), evaluated pass by pass. */
module LabelExamples {
  import opened Chars
  import opened Labels

  lemma Age2Pass1() ensures SplitAcronyms("age2") == "age2" {}
  lemma Age2Pass2() ensures SplitBoundaries("age2", IsLowerOrDigit, IsUpper) == "age2" {}
  lemma Age2Pass3() ensures SplitBoundaries("age2", IsLetter, IsDigit) == "age 2" {}
  lemma Age2Spaces() ensures InsertSpaces("age2") == "age 2" {
    Age2Pass1();
    Age2Pass2();
    Age2Pass3();
  }
  lemma Age2UpperFirst() ensures UpperFirst("age 2") == "Age 2" {}
  lemma Age2Trim() ensures Trim("Age 2") == "Age 2" {
    TrimOfClean("Age 2");
  }

  /** A digit after a letter is set off: `age2` becomes `Age 2`. */
  lemma CamelPadAge2()
    ensures CamelPad("age2") == "Age 2"
  {
    Age2Spaces();
    Age2UpperFirst();
    Age2Trim();
  }

  lemma UserIdPass1() ensures SplitAcronyms("userId") == "userId" {
    SplitAcronymsConcat("user", "Id");
    assert "user" + "Id" == "userId";
  }
  lemma UserIdPass2() ensures SplitBoundaries("userId", IsLowerOrDigit, IsUpper) == "user Id" {}
  lemma UserIdPass3() ensures SplitBoundaries("user Id", IsLetter, IsDigit) == "user Id" {
    assert "user" + " Id" == "user Id";
    assert SplitBoundaries("user", IsLetter, IsDigit) == "user";
    assert SplitBoundaries(" Id", IsLetter, IsDigit) == " Id";
    SplitBoundariesConcat("user", " Id", IsLetter, IsDigit);
  }
  lemma UserIdSpaces() ensures InsertSpaces("userId") == "user Id" {
    UserIdPass1();
    UserIdPass2();
    UserIdPass3();
  }
  lemma UserIdUpperFirst() ensures UpperFirst("user Id") == "User Id" {}
  lemma UserIdTrim() ensures Trim("User Id") == "User Id" {
    TrimOfClean("User Id");
  }

  /** A capital after a lower-case letter starts a new word: `userId` becomes `User Id`. */
  lemma CamelPadUserId()
    ensures CamelPad("userId") == "User Id"
  {
    UserIdSpaces();
    UserIdUpperFirst();
    UserIdTrim();
  }

  lemma HttpSeRun() ensures UpperRun("HTTPSe") == 5 && AcronymAt("HTTPSe") {}
  lemma HttpSeReplacement() ensures AcronymReplacement("HTTPSe", 5) == " HTTP Se" {}
  lemma HttpSePass1() ensures SplitAcronyms("HTTPSe") == " HTTP Se" {
    HttpSeRun();
    SplitAcronymsOfMatch("HTTPSe");
    HttpSeReplacement();
    assert "HTTPSe"[6..] == [];
  }
  lemma RverPass1() ensures SplitAcronyms("rver") == "rver" {}
  lemma HttpServerPass1() ensures SplitAcronyms("HTTPServer") == " HTTP Server" {
    assert "HTTPSe" + "rver" == "HTTPServer";
    assert " HTTP Se" + "rver" == " HTTP Server";
    HttpSePass1();
    RverPass1();
    SplitAcronymsConcat("HTTPSe", "rver");
  }
  lemma HttpChunk() ensures
    && SplitBoundaries(" HTTP", IsLowerOrDigit, IsUpper) == " HTTP"
    && SplitBoundaries(" HTTP", IsLetter, IsDigit) == " HTTP"
  {}
  lemma ServerChunk2() ensures SplitBoundaries(" Server", IsLowerOrDigit, IsUpper) == " Server" {}
  lemma ServerChunk3() ensures SplitBoundaries(" Server", IsLetter, IsDigit) == " Server" {}
  lemma HttpServerPass2() ensures SplitBoundaries(" HTTP Server", IsLowerOrDigit, IsUpper) == " HTTP Server" {
    assert " HTTP" + " Server" == " HTTP Server";
    HttpChunk();
    ServerChunk2();
    SplitBoundariesConcat(" HTTP", " Server", IsLowerOrDigit, IsUpper);
  }
  lemma HttpServerPass3() ensures SplitBoundaries(" HTTP Server", IsLetter, IsDigit) == " HTTP Server" {
    assert " HTTP" + " Server" == " HTTP Server";
    HttpChunk();
    ServerChunk3();
    SplitBoundariesConcat(" HTTP", " Server", IsLetter, IsDigit);
  }
  lemma HttpServerSpaces() ensures InsertSpaces("HTTPServer") == " HTTP Server" {
    HttpServerPass1();
    HttpServerPass2();
    HttpServerPass3();
  }
  lemma HttpServerTrim() ensures Trim(" HTTP Server") == "HTTP Server" {
    assert [' '] + "HTTP Server" == " HTTP Server";
    TrimOfPadded("HTTP Server");
  }

  /** An acronym is split from the capitalised word after it, and the space pass 1
      puts in front of it is trimmed: `HTTPServer` becomes `HTTP Server`. */
  lemma CamelPadHttpServer()
    ensures CamelPad("HTTPServer") == "HTTP Server"
  {
    HttpServerSpaces();
    assert UpperFirst(" HTTP Server") == " HTTP Server";
    HttpServerTrim();
  }

  lemma AbcDePass1() ensures SplitAcronyms("ABCDe") == " ABC De" {}
  lemma AbcDefPass1() ensures SplitAcronyms("ABCDef") == " ABC Def" {
    assert "ABCDe" + "f" == "ABCDef";
    assert " ABC De" + "f" == " ABC Def";
    AbcDePass1();
    assert SplitAcronyms("f") == "f";
    SplitAcronymsConcat("ABCDe", "f");
  }
  lemma AbcChunk() ensures
    && SplitBoundaries(" ABC", IsLowerOrDigit, IsUpper) == " ABC"
    && SplitBoundaries(" ABC", IsLetter, IsDigit) == " ABC"
  {}
  lemma DefChunk() ensures
    && SplitBoundaries(" Def", IsLowerOrDigit, IsUpper) == " Def"
    && SplitBoundaries(" Def", IsLetter, IsDigit) == " Def"
  {}
  lemma AbcDefPass2() ensures SplitBoundaries(" ABC Def", IsLowerOrDigit, IsUpper) == " ABC Def" {
    assert " ABC" + " Def" == " ABC Def";
    AbcChunk();
    DefChunk();
    SplitBoundariesConcat(" ABC", " Def", IsLowerOrDigit, IsUpper);
  }
  lemma AbcDefPass3() ensures SplitBoundaries(" ABC Def", IsLetter, IsDigit) == " ABC Def" {
    assert " ABC" + " Def" == " ABC Def";
    AbcChunk();
    DefChunk();
    SplitBoundariesConcat(" ABC", " Def", IsLetter, IsDigit);
  }
  lemma AbcDefSpaces() ensures InsertSpaces("ABCDef") == " ABC Def" {
    AbcDefPass1();
    AbcDefPass2();
    AbcDefPass3();
  }
  lemma AbcDefTrim() ensures Trim(" ABC Def") == "ABC Def" {
    assert [' '] + "ABC Def" == " ABC Def";
    TrimOfPadded("ABC Def");
  }

  /** The last capital of a run belongs to the word after it: `ABCDef` becomes
      `ABC Def`. */
  lemma CamelPadAbcDef()
    ensures CamelPad("ABCDef") == "ABC Def"
  {
    AbcDefSpaces();
    assert UpperFirst(" ABC Def") == " ABC Def";
    AbcDefTrim();
  }

  lemma LabelPass1() ensures SplitAcronyms("Label") == "Label" {}
  lemma LabelPass2() ensures SplitBoundaries("Label", IsLowerOrDigit, IsUpper) == "Label" {}
  lemma LabelPass3() ensures SplitBoundaries("Label", IsLetter, IsDigit) == "Label" {}

  lemma LabelSpaces() ensures InsertSpaces("Label") == "Label" {
    LabelPass1();
    LabelPass2();
    LabelPass3();
  }
  lemma LabelUpperFirst() ensures UpperFirst("Label") == "Label" {
    UpperFirstFixed("Label");
  }
  lemma LabelTrim() ensures Trim("Label") == "Label" {
    TrimOfClean("Label");
  }

  /** A single capitalised word is its own label. */
  lemma CamelPadLabel()
    ensures CamelPad("Label") == "Label"
  {
    LabelSpaces();
    LabelUpperFirst();
    LabelTrim();
  }

  lemma OnClickPass1() ensures SplitAcronyms("OnClick") == "OnClick" {
    SplitAcronymsConcat("On", "Click");
    assert "On" + "Click" == "OnClick";
    assert SplitAcronyms("On") == "On";
    assert SplitAcronyms("Click") == "Click";
  }
  lemma NClickPass2() ensures SplitBoundaries("nClick", IsLowerOrDigit, IsUpper) == "n Click" {}
  lemma OnClickPass2() ensures SplitBoundaries("OnClick", IsLowerOrDigit, IsUpper) == "On Click" {
    assert "O" + "nClick" == "OnClick";
    assert "O" + "n Click" == "On Click";
    NClickPass2();
    assert SplitBoundaries("O", IsLowerOrDigit, IsUpper) == "O";
    SplitBoundariesConcat("O", "nClick", IsLowerOrDigit, IsUpper);
  }
  lemma ClickPass3() ensures SplitBoundaries(" Click", IsLetter, IsDigit) == " Click" {
    assert " Cl" + "ick" == " Click";
    assert SplitBoundaries(" Cl", IsLetter, IsDigit) == " Cl";
    assert SplitBoundaries("ick", IsLetter, IsDigit) == "ick";
    SplitBoundariesConcat(" Cl", "ick", IsLetter, IsDigit);
  }
  lemma OnClickPass3() ensures SplitBoundaries("On Click", IsLetter, IsDigit) == "On Click" {
    assert "On" + " Click" == "On Click";
    ClickPass3();
    assert SplitBoundaries("On", IsLetter, IsDigit) == "On";
    SplitBoundariesConcat("On", " Click", IsLetter, IsDigit);
  }
  lemma OnClickSpaces() ensures InsertSpaces("OnClick") == "On Click" {
    OnClickPass1();
    OnClickPass2();
    OnClickPass3();
  }

  lemma OnClickUpperFirst() ensures UpperFirst("On Click") == "On Click" {
    UpperFirstFixed("On Click");
  }
  lemma OnClickTrim() ensures Trim("On Click") == "On Click" {
    TrimOfClean("On Click");
  }

  /** A capital after a lower-case letter starts a new word: `OnClick` becomes
      `On Click`. */
  lemma CamelPadOnClick()
    ensures CamelPad("OnClick") == "On Click"
  {
    OnClickSpaces();
    OnClickUpperFirst();
    OnClickTrim();
  }
}
