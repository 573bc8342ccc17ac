/**
 * Concrete decodings: the vectors asserted by the unit tests of
 * src/webdynpro/event.rs and tests/event_tests.rs, and the edge cases of the
 * two passes. Each long vector is cut into pieces that decode on their own
 * (Event.Isolated) and reassembled with Event.DecodedAppend.
 */
module EventVectors {

  import opened Event
  import opened Wrappers

  /** The structural pass runs first: ~E004 is a colon, not U+E004. */
  lemma StructuralBeforeHex()
    ensures Decoded("~E004") == ":"
  {
    StructuralPiece(3);
  }

  /** The structural escapes are case-sensitive: ~e004 falls to the hex rule. */
  lemma LowercaseEscapeIsHex()
    ensures Decoded("~e004") == [0xE004 as char]
  {
    HexPiece("e004");
  }

  lemma TildePiece() ensures Isolated("~007E") && Decoded("~007E") == "~" { HexPiece("007E"); }
  lemma ZeroZeroFourOnePiece() ensures Isolated("0041") && Decoded("0041") == "0041" { PlainPiece("0041"); }
  lemma LetterAPiece() ensures Isolated("~0041") && Decoded("~0041") == "A" { HexPiece("0041"); }

  /** ~D800 names a surrogate, so both passes keep it as it is. */
  lemma SurrogatePiece()
    ensures Isolated("~D800") && Decoded("~D800") == "~D800"
  {
    var s := "~D800";
    assert s[1..] == "D800";
    assert StructuralPass(s, AllEscapes) == [s[0]] + StructuralPass("D800", AllEscapes);
    StructuralPassNoTilde("D800", AllEscapes);
    HexEscapeDecoded("D800", []);
    assert "~" + "D800" + [] == s;
  }

  /** A produced '~' is not rescanned: ~007E0041 gives ~0041. */
  lemma OutputNotRescanned()
    ensures Decoded("~007E" + "0041") == "~" + "0041"
  {
    TildePiece();
    ZeroZeroFourOnePiece();
    DecodedAppend("~007E", "0041");
  }

  /** A surrogate code point is kept verbatim, and decoding goes on after it. */
  lemma SurrogateKept()
    ensures Decoded("~D800" + "~0041") == "~D800" + "A"
  {
    SurrogatePiece();
    LetterAPiece();
    DecodedAppend("~D800", "~0041");
  }

  // One lemma per piece of the vectors below, so that each proof stays small.
  lemma Piece1() ensures Isolated("ClientInspector_Notify") && Decoded("ClientInspector_Notify") == "ClientInspector_Notify" { PlainPiece("ClientInspector_Notify"); }
  lemma Piece2() ensures Isolated("~E002") && Decoded("~E002") == "{" { StructuralPiece(1); }
  lemma Piece3() ensures Isolated("Id") && Decoded("Id") == "Id" { PlainPiece("Id"); }
  lemma Piece4() ensures Isolated("~E004") && Decoded("~E004") == ":" { StructuralPiece(3); }
  lemma Piece5() ensures Isolated("WD01") && Decoded("WD01") == "WD01" { PlainPiece("WD01"); }
  lemma Piece6() ensures Isolated("~E005") && Decoded("~E005") == "," { StructuralPiece(4); }
  lemma Piece7() ensures Isolated("Data") && Decoded("Data") == "Data" { PlainPiece("Data"); }
  lemma Piece8() ensures Isolated("ClientWidth") && Decoded("ClientWidth") == "ClientWidth" { PlainPiece("ClientWidth"); }
  lemma Piece9() ensures Isolated("~003A") && Decoded("~003A") == ":" { HexPiece("003A"); }
  lemma Piece10() ensures Isolated("995px") && Decoded("995px") == "995px" { PlainPiece("995px"); }
  lemma Piece11() ensures Isolated("~E003") && Decoded("~E003") == "}" { StructuralPiece(2); }
  lemma Piece12() ensures Isolated("ResponseData") && Decoded("ResponseData") == "ResponseData" { PlainPiece("ResponseData"); }
  lemma Piece13() ensures Isolated("delta") && Decoded("delta") == "delta" { PlainPiece("delta"); }
  lemma Piece14() ensures Isolated("EnqueueCardinality") && Decoded("EnqueueCardinality") == "EnqueueCardinality" { PlainPiece("EnqueueCardinality"); }
  lemma Piece15() ensures Isolated("single") && Decoded("single") == "single" { PlainPiece("single"); }
  lemma Piece16() ensures Isolated("Button_Press") && Decoded("Button_Press") == "Button_Press" { PlainPiece("Button_Press"); }
  lemma Piece17() ensures Isolated("ZCMW_PERIOD_RE.ID_0DC742") && Decoded("ZCMW_PERIOD_RE.ID_0DC742") == "ZCMW_PERIOD_RE.ID_0DC742" { PlainPiece("ZCMW_PERIOD_RE.ID_0DC742"); }
  lemma Piece18() ensures Isolated("680F42DA9747594D1AE51A0C") && Decoded("680F42DA9747594D1AE51A0C") == "680F42DA9747594D1AE51A0C" { PlainPiece("680F42DA9747594D1AE51A0C"); }
  lemma Piece19() ensures Isolated("69") && Decoded("69") == "69" { PlainPiece("69"); }
  lemma Piece20() ensures Isolated("VIW_MAIN.BUTTON_PREV") && Decoded("VIW_MAIN.BUTTON_PREV") == "VIW_MAIN.BUTTON_PREV" { PlainPiece("VIW_MAIN.BUTTON_PREV"); }
  lemma Piece21() ensures Isolated("ClientAction") && Decoded("ClientAction") == "ClientAction" { PlainPiece("ClientAction"); }
  lemma Piece22() ensures Isolated("submit") && Decoded("submit") == "submit" { PlainPiece("submit"); }
  lemma Piece23() ensures Isolated("Form_Request") && Decoded("Form_Request") == "Form_Request" { PlainPiece("Form_Request"); }
  lemma Piece24() ensures Isolated("sap.client.SsrClient.for") && Decoded("sap.client.SsrClient.for") == "sap.client.SsrClient.for" { PlainPiece("sap.client.SsrClient.for"); }
  lemma Piece25() ensures Isolated("m") && Decoded("m") == "m" { PlainPiece("m"); }
  lemma Piece26() ensures Isolated("Async") && Decoded("Async") == "Async" { PlainPiece("Async"); }
  lemma Piece27() ensures Isolated("false") && Decoded("false") == "false" { PlainPiece("false"); }
  lemma Piece28() ensures Isolated("FocusInfo") && Decoded("FocusInfo") == "FocusInfo" { PlainPiece("FocusInfo"); }
  lemma Piece29() ensures Isolated("~0040") && Decoded("~0040") == "@" { HexPiece("0040"); }
  lemma Piece30() ensures Isolated("~007B") && Decoded("~007B") == "{" { HexPiece("007B"); }
  lemma Piece31() ensures Isolated("~0022") && Decoded("~0022") == "\"" { HexPiece("0022"); }
  lemma Piece32() ensures Isolated("sFocussedId") && Decoded("sFocussedId") == "sFocussedId" { PlainPiece("sFocussedId"); }
  lemma Piece33() ensures Isolated("BUTTON_ID") && Decoded("BUTTON_ID") == "BUTTON_ID" { PlainPiece("BUTTON_ID"); }
  lemma Piece34() ensures Isolated("~007D") && Decoded("~007D") == "}" { HexPiece("007D"); }
  lemma Piece35() ensures Isolated("Hash") && Decoded("Hash") == "Hash" { PlainPiece("Hash"); }
  lemma Piece36() ensures Isolated("DomChanged") && Decoded("DomChanged") == "DomChanged" { PlainPiece("DomChanged"); }
  lemma Piece37() ensures Isolated("IsDirty") && Decoded("IsDirty") == "IsDirty" { PlainPiece("IsDirty"); }

  /** The ClientInspector/Notify vector of src/webdynpro/event.rs. */
  lemma ClientInspectorVector()
    ensures Decoded(
      "ClientInspector_Notify" + "~E002" + "Id" + "~E004" + "WD01" + "~E005" + "Data" + "~E004" +
      "ClientWidth" + "~003A" + "995px" + "~E003" + "~E002" + "ResponseData" + "~E004" + "delta" +
      "~E005" + "EnqueueCardinality" + "~E004" + "single" + "~E003" + "~E002" + "~E003"
    ) == (
      "ClientInspector_Notify" + "{" + "Id" + ":" + "WD01" + "," + "Data" + ":" + "ClientWidth" +
      ":" + "995px" + "}" + "{" + "ResponseData" + ":" + "delta" + "," + "EnqueueCardinality" +
      ":" + "single" + "}" + "{" + "}"
    )
  {
    Piece1(); Piece2(); Piece3(); Piece4(); Piece5(); Piece6(); Piece7(); Piece8(); Piece9();
    Piece10(); Piece11(); Piece12(); Piece13(); Piece14(); Piece15();
    var a, r := "ClientInspector_Notify", "ClientInspector_Notify";
    DecodedAppend(a, "~E002"); a, r := a + "~E002", r + "{";
    DecodedAppend(a, "Id"); a, r := a + "Id", r + "Id";
    DecodedAppend(a, "~E004"); a, r := a + "~E004", r + ":";
    DecodedAppend(a, "WD01"); a, r := a + "WD01", r + "WD01";
    DecodedAppend(a, "~E005"); a, r := a + "~E005", r + ",";
    DecodedAppend(a, "Data"); a, r := a + "Data", r + "Data";
    DecodedAppend(a, "~E004"); a, r := a + "~E004", r + ":";
    DecodedAppend(a, "ClientWidth"); a, r := a + "ClientWidth", r + "ClientWidth";
    DecodedAppend(a, "~003A"); a, r := a + "~003A", r + ":";
    DecodedAppend(a, "995px"); a, r := a + "995px", r + "995px";
    DecodedAppend(a, "~E003"); a, r := a + "~E003", r + "}";
    DecodedAppend(a, "~E002"); a, r := a + "~E002", r + "{";
    DecodedAppend(a, "ResponseData"); a, r := a + "ResponseData", r + "ResponseData";
    DecodedAppend(a, "~E004"); a, r := a + "~E004", r + ":";
    DecodedAppend(a, "delta"); a, r := a + "delta", r + "delta";
    DecodedAppend(a, "~E005"); a, r := a + "~E005", r + ",";
    DecodedAppend(a, "EnqueueCardinality"); a, r := a + "EnqueueCardinality", r + "EnqueueCardinality";
    DecodedAppend(a, "~E004"); a, r := a + "~E004", r + ":";
    DecodedAppend(a, "single"); a, r := a + "single", r + "single";
    DecodedAppend(a, "~E003"); a, r := a + "~E003", r + "}";
    DecodedAppend(a, "~E002"); a, r := a + "~E002", r + "{";
    DecodedAppend(a, "~E003"); a, r := a + "~E003", r + "}";
  }

  /** The Button/Press vector of src/webdynpro/event.rs and tests/event_tests.rs. */
  lemma ButtonPressVector()
    ensures Decoded(
      "Button_Press" + "~E002" + "Id" + "~E004" + "ZCMW_PERIOD_RE.ID_0DC742" +
      "680F42DA9747594D1AE51A0C" + "69" + "~003A" + "VIW_MAIN.BUTTON_PREV" + "~E003" + "~E002" +
      "ResponseData" + "~E004" + "delta" + "~E005" + "ClientAction" + "~E004" + "submit" +
      "~E003" + "~E002" + "~E003"
    ) == (
      "Button_Press" + "{" + "Id" + ":" + "ZCMW_PERIOD_RE.ID_0DC742" + "680F42DA9747594D1AE51A0C" +
      "69" + ":" + "VIW_MAIN.BUTTON_PREV" + "}" + "{" + "ResponseData" + ":" + "delta" + "," +
      "ClientAction" + ":" + "submit" + "}" + "{" + "}"
    )
  {
    Piece16(); Piece2(); Piece3(); Piece4(); Piece17(); Piece18(); Piece19(); Piece9(); Piece20();
    Piece11(); Piece12(); Piece13(); Piece6(); Piece21(); Piece22();
    var a, r := "Button_Press", "Button_Press";
    DecodedAppend(a, "~E002"); a, r := a + "~E002", r + "{";
    DecodedAppend(a, "Id"); a, r := a + "Id", r + "Id";
    DecodedAppend(a, "~E004"); a, r := a + "~E004", r + ":";
    DecodedAppend(a, "ZCMW_PERIOD_RE.ID_0DC742"); a, r := a + "ZCMW_PERIOD_RE.ID_0DC742", r + "ZCMW_PERIOD_RE.ID_0DC742";
    DecodedAppend(a, "680F42DA9747594D1AE51A0C"); a, r := a + "680F42DA9747594D1AE51A0C", r + "680F42DA9747594D1AE51A0C";
    DecodedAppend(a, "69"); a, r := a + "69", r + "69";
    DecodedAppend(a, "~003A"); a, r := a + "~003A", r + ":";
    DecodedAppend(a, "VIW_MAIN.BUTTON_PREV"); a, r := a + "VIW_MAIN.BUTTON_PREV", r + "VIW_MAIN.BUTTON_PREV";
    DecodedAppend(a, "~E003"); a, r := a + "~E003", r + "}";
    DecodedAppend(a, "~E002"); a, r := a + "~E002", r + "{";
    DecodedAppend(a, "ResponseData"); a, r := a + "ResponseData", r + "ResponseData";
    DecodedAppend(a, "~E004"); a, r := a + "~E004", r + ":";
    DecodedAppend(a, "delta"); a, r := a + "delta", r + "delta";
    DecodedAppend(a, "~E005"); a, r := a + "~E005", r + ",";
    DecodedAppend(a, "ClientAction"); a, r := a + "ClientAction", r + "ClientAction";
    DecodedAppend(a, "~E004"); a, r := a + "~E004", r + ":";
    DecodedAppend(a, "submit"); a, r := a + "submit", r + "submit";
    DecodedAppend(a, "~E003"); a, r := a + "~E003", r + "}";
    DecodedAppend(a, "~E002"); a, r := a + "~E002", r + "{";
    DecodedAppend(a, "~E003"); a, r := a + "~E003", r + "}";
  }

  /** The Form/Request vector of src/webdynpro/event.rs. */
  lemma FormRequestVector()
    ensures Decoded(
      "Form_Request" + "~E002" + "Id" + "~E004" + "sap.client.SsrClient.for" + "m" + "~E005" +
      "Async" + "~E004" + "false" + "~E005" + "FocusInfo" + "~E004" + "~0040" + "~007B" + "~0022" +
      "sFocussedId" + "~0022" + "~003A" + "~0022" + "BUTTON_ID" + "~0022" + "~007D" + "~E005" +
      "Hash" + "~E004" + "~E005" + "DomChanged" + "~E004" + "false" + "~E005" + "IsDirty" +
      "~E004" + "false" + "~E003" + "~E002" + "ResponseData" + "~E004" + "delta" + "~E003" +
      "~E002" + "~E003"
    ) == (
      "Form_Request" + "{" + "Id" + ":" + "sap.client.SsrClient.for" + "m" + "," + "Async" + ":" +
      "false" + "," + "FocusInfo" + ":" + "@" + "{" + "\"" + "sFocussedId" + "\"" + ":" + "\"" +
      "BUTTON_ID" + "\"" + "}" + "," + "Hash" + ":" + "," + "DomChanged" + ":" + "false" + "," +
      "IsDirty" + ":" + "false" + "}" + "{" + "ResponseData" + ":" + "delta" + "}" + "{" + "}"
    )
  {
    Piece23(); Piece2(); Piece3(); Piece4(); Piece24(); Piece25(); Piece6(); Piece26(); Piece27();
    Piece28(); Piece29(); Piece30(); Piece31(); Piece32(); Piece9(); Piece33(); Piece34();
    Piece35(); Piece36(); Piece37(); Piece11(); Piece12(); Piece13();
    var a, r := "Form_Request", "Form_Request";
    DecodedAppend(a, "~E002"); a, r := a + "~E002", r + "{";
    DecodedAppend(a, "Id"); a, r := a + "Id", r + "Id";
    DecodedAppend(a, "~E004"); a, r := a + "~E004", r + ":";
    DecodedAppend(a, "sap.client.SsrClient.for"); a, r := a + "sap.client.SsrClient.for", r + "sap.client.SsrClient.for";
    DecodedAppend(a, "m"); a, r := a + "m", r + "m";
    DecodedAppend(a, "~E005"); a, r := a + "~E005", r + ",";
    DecodedAppend(a, "Async"); a, r := a + "Async", r + "Async";
    DecodedAppend(a, "~E004"); a, r := a + "~E004", r + ":";
    DecodedAppend(a, "false"); a, r := a + "false", r + "false";
    DecodedAppend(a, "~E005"); a, r := a + "~E005", r + ",";
    DecodedAppend(a, "FocusInfo"); a, r := a + "FocusInfo", r + "FocusInfo";
    DecodedAppend(a, "~E004"); a, r := a + "~E004", r + ":";
    DecodedAppend(a, "~0040"); a, r := a + "~0040", r + "@";
    DecodedAppend(a, "~007B"); a, r := a + "~007B", r + "{";
    DecodedAppend(a, "~0022"); a, r := a + "~0022", r + "\"";
    DecodedAppend(a, "sFocussedId"); a, r := a + "sFocussedId", r + "sFocussedId";
    DecodedAppend(a, "~0022"); a, r := a + "~0022", r + "\"";
    DecodedAppend(a, "~003A"); a, r := a + "~003A", r + ":";
    DecodedAppend(a, "~0022"); a, r := a + "~0022", r + "\"";
    DecodedAppend(a, "BUTTON_ID"); a, r := a + "BUTTON_ID", r + "BUTTON_ID";
    DecodedAppend(a, "~0022"); a, r := a + "~0022", r + "\"";
    DecodedAppend(a, "~007D"); a, r := a + "~007D", r + "}";
    DecodedAppend(a, "~E005"); a, r := a + "~E005", r + ",";
    DecodedAppend(a, "Hash"); a, r := a + "Hash", r + "Hash";
    DecodedAppend(a, "~E004"); a, r := a + "~E004", r + ":";
    DecodedAppend(a, "~E005"); a, r := a + "~E005", r + ",";
    DecodedAppend(a, "DomChanged"); a, r := a + "DomChanged", r + "DomChanged";
    DecodedAppend(a, "~E004"); a, r := a + "~E004", r + ":";
    DecodedAppend(a, "false"); a, r := a + "false", r + "false";
    DecodedAppend(a, "~E005"); a, r := a + "~E005", r + ",";
    DecodedAppend(a, "IsDirty"); a, r := a + "IsDirty", r + "IsDirty";
    DecodedAppend(a, "~E004"); a, r := a + "~E004", r + ":";
    DecodedAppend(a, "false"); a, r := a + "false", r + "false";
    DecodedAppend(a, "~E003"); a, r := a + "~E003", r + "}";
    DecodedAppend(a, "~E002"); a, r := a + "~E002", r + "{";
    DecodedAppend(a, "ResponseData"); a, r := a + "ResponseData", r + "ResponseData";
    DecodedAppend(a, "~E004"); a, r := a + "~E004", r + ":";
    DecodedAppend(a, "delta"); a, r := a + "delta", r + "delta";
    DecodedAppend(a, "~E003"); a, r := a + "~E003", r + "}";
    DecodedAppend(a, "~E002"); a, r := a + "~E002", r + "{";
    DecodedAppend(a, "~E003"); a, r := a + "~E003", r + "}";
  }
}
