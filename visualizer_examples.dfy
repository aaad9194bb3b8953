/**
 * Concrete input lines for the checks of the CSV visualizer's "Update data"
 * action: one line that is accepted and one that the flag check refuses.
 */
module VisualizerExamples {
  import opened Wrappers
  import opened PyText
  import opened PyNum
  import opened Visualizer

  /** A typed line is accepted and stored with its integer parsed, its
      Value2 text kept and its flag read as a boolean. */
  lemma LineAccepted()
    ensures ValidateRow("d,c,1,2.5,True") == Success(Row("d", "c", 1, "2.5", true))
  {
    var row := Row("d", "c", 1, "2.5", true);
    AcceptedRowRenderable();
    AcceptedRowRendered();
    ValidateRender(row);
  }

  lemma AcceptedRowRenderable()
    ensures Renderable(Row("d", "c", 1, "2.5", true))
  {
    TrimNoSpaceEnds("d", IsSpace);
    TrimNoSpaceEnds("c", IsSpace);
    TwoPointFiveIsFloat();
    assert NatToString(1) == "1";
  }

  lemma AcceptedRowRendered()
    ensures Render(Row("d", "c", 1, "2.5", true)) == "d,c,1,2.5,True"
  {
    assert IntToString(1) == "1";
    JoinFive("d", "c", "1", "2.5", "True");
  }

  /** The same line with a lower-case flag passes the count, Value1 and
      Value2 checks and is refused by the flag check. */
  lemma LowerCaseFlagRefused()
    ensures ValidateRow("d,c,1,2.5,true") == Failure(FlagMsg)
  {
    LowerCaseFlagLineStripped();
    LowerCaseFlagLineSplit();
    LowerCaseFlagFields();
  }

  lemma LowerCaseFlagLineStripped()
    ensures Strip("d,c,1,2.5,true") == "d,c,1,2.5,true"
  {
    TrimNoSpaceEnds("d,c,1,2.5,true", IsSpace);
  }

  lemma LowerCaseFlagLineSplit()
    ensures Split("d,c,1,2.5,true", ',') == ["d", "c", "1", "2.5", "true"]
  {
    var fields := ["d", "c", "1", "2.5", "true"];
    LowerCaseFlagLineJoined();
    assert forall i :: 0 <= i < |fields| ==> ',' !in fields[i];
    SplitJoin(fields, ',');
  }

  lemma LowerCaseFlagLineJoined()
    ensures Join(["d", "c", "1", "2.5", "true"], ',') == "d,c,1,2.5,true"
  {
    JoinFive("d", "c", "1", "2.5", "true");
  }

  lemma LowerCaseFlagFields()
    ensures ValidateFields(["d", "c", "1", "2.5", "true"]) == Failure(FlagMsg)
  {
    OneIsInt();
    TwoPointFiveIsFloat();
    FlagIsCaseSensitive("true");
  }

  lemma OneIsInt()
    ensures ParseInt("1") == Some(1)
  {
    TrimNoSpaceEnds("1", IsNumberSpace);
  }

  lemma TwoPointFiveIsFloat()
    ensures IsFloatText("2.5")
  {
    TrimNoSpaceEnds("2.5", IsNumberSpace);
    assert IsFloatNumber("2.5");
  }

  /** `str.isspace()` accepts the separator U+001C but `int()` does not skip
      it, so a Value1 field that starts with one is refused. */
  lemma SeparatorBeforeValue1Refused()
    ensures ValidateFields(["d", "c", "\U{1C}1", "2.5", "True"]) == Failure(Value1Msg)
  {
    SeparatorIsNotInt();
  }

  lemma SeparatorIsNotInt()
    ensures IsSpace('\U{1C}') && ParseInt("\U{1C}1") == None
  {
    TrimNoSpaceEnds("\U{1C}1", IsNumberSpace);
    assert !IsDigitPart("\U{1C}1");
  }
}
