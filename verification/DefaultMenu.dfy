/** The menu tree of SetDefaultValues (devices/xantrex-trace.cc): the calls that build it, the tree that they build, the
    tree that they were meant to build, and what follows for the navigation. */
module DefaultMenu {
  import opened Text
  import opened Display
  import opened Menu
  import opened Navigation
  import opened Polling

  // ----- calls -----

  /** A call of SetItem in SetDefaultValues. The item built is pushed onto the row of its heading. */
  datatype SetCall = SetHead(text: string, x: nat)
                   | SetInfo(text: string, x: nat, y: nat)
                   | SetValue(text: string, x: nat, y: nat, valuekind: Kind)

  function KindOfCall(c: SetCall): Kind {
    match c
    case SetHead(_, _) => MENUHEAD
    case SetInfo(_, _, _) => INFO
    case SetValue(_, _, _, kind) => kind
  }

  /** The item index that the call asks for. */
  function IndexOf(c: SetCall): nat {
    if c.SetHead? then 0 else c.y
  }

  /** The item that the host stores: lines of information lose their index. */
  function Stored(c: SetCall): MenuItem {
    MenuItem(c.text, c.x, if c.SetInfo? then 0 else IndexOf(c), KindOfCall(c))
  }

  /** The item that was meant. */
  function Meant(c: SetCall): MenuItem {
    MenuItem(c.text, c.x, IndexOf(c), KindOfCall(c))
  }

  type Calls = seq<seq<SetCall>>

  function StoredRow(row: seq<SetCall>): (r: seq<MenuItem>)
    ensures |r| == |row| && forall i | 0 <= i < |row| :: r[i] == Stored(row[i])
  {
    seq(|row|, i requires 0 <= i < |row| => Stored(row[i]))
  }

  function StoredRows(calls: Calls): (r: Items)
    ensures |r| == |calls| && forall h | 0 <= h < |calls| :: r[h] == StoredRow(calls[h])
  {
    seq(|calls|, h requires 0 <= h < |calls| => StoredRow(calls[h]))
  }

  function MeantRow(row: seq<SetCall>): (r: seq<MenuItem>)
    ensures |r| == |row| && forall i | 0 <= i < |row| :: r[i] == Meant(row[i])
  {
    seq(|row|, i requires 0 <= i < |row| => Meant(row[i]))
  }

  function MeantRows(calls: Calls): (r: Items)
    ensures |r| == |calls| && forall h | 0 <= h < |calls| :: r[h] == MeantRow(calls[h])
  {
    seq(|calls|, h requires 0 <= h < |calls| => MeantRow(calls[h]))
  }

  function FaceRow(row: seq<SetCall>): (r: seq<Face>)
    ensures |r| == |row| && forall i | 0 <= i < |row| :: r[i] == Face(row[i].text, KindOfCall(row[i]))
  {
    seq(|row|, i requires 0 <= i < |row| => Face(row[i].text, KindOfCall(row[i])))
  }

  // ----- the facts -----

  const AC_INPUTS := 11

  predicate NoV(text: string) {
    forall k | 0 <= k < |text| :: text[k] != 'v'
  }

  /** A row is built by calls for its heading, the heading itself first. In all rows but one the calls ask for the item
      indices in order. Only headings 1 and 9 start with "Inverter"; no other heading has a 'v' in its name. */
  ghost predicate RowFacts(row: seq<SetCall>, h: nat) {
    && |row| > 0
    && (forall i | 0 <= i < |row| :: row[i].x == h)
    && row[0].SetHead?
    && (h != AC_INPUTS ==> forall i | 1 <= i < |row| :: !row[i].SetHead? && row[i].y == i)
    && (if h == 1 || h == 9 then START_WORD <= row[0].text else NoV(row[0].text))
  }

  /** The tests on a label's text come out for the field of meters item `i`. */
  predicate Selects(text: string, i: nat) {
    && |text| >= 8
    && (Has(text, 0, "Load") <==> i == 3)
    && (Has(text, 8, "actual") <==> i == 4)
    && (Has(text, 8, "TempComp") <==> i == 5)
    && (Has(text, 0, "Inverter") <==> i == 6)
    && (Has(text, 0, "Grid") <==> i == 7)
    && (Has(text, 0, "Generator") <==> i == 8)
    && (Has(text, 0, "Read Freq") <==> i == 9)
  }

  ghost predicate MetersFacts(row: seq<SetCall>) {
    && |row| > INFO_ITEM
    && row[1].SetValue? && row[INFO_ITEM].SetInfo?
    && (forall i: nat | 2 <= i <= INFO_ITEM :: KindOfCall(row[i]) == KindOf(i))
    && (forall i: nat | 2 <= i < INFO_ITEM :: Selects(row[i].text, i) && Quiet(row[i].text))
    && (forall i: nat, j: nat | i <= INFO_ITEM && j <= INFO_ITEM && i != j :: Foreign(row[j].text, row[i].text))
  }

  ghost predicate MenuFacts(calls: Calls) {
    && |calls| == 21
    && (forall h | 0 <= h < 21 :: RowFacts(calls[h], h))
    && MetersFacts(calls[METERS])
    && calls[AC_INPUTS] == AcInputsRow()
  }

  // ----- the table -----

  method TopOfMenu() returns (row: seq<SetCall>)
    ensures RowFacts(row, 0)
  {
    row := [
      SetHead("Top of Menu", 0)
    ];
  }

  method InverterMode() returns (row: seq<SetCall>)
    ensures RowFacts(row, 1)
  {
    row := [
      SetHead("Inverter Mode", 1),
      SetValue("Set Inverter     OFF SRCH ON CHG", 1, 1, BOOL),
      SetInfo("CHG avail. Only  in FLT mode", 1, 2),
      SetInfo("Press red or     setpoint button", 1, 3),
      SetInfo("to move.         Move cursor to", 1, 4),
      SetInfo("Inverter OFF to  resetOverCurrent", 1, 5)
    ];
    assert "Inverter Mode"[..8] == START_WORD;
  }

  method GeneratorMode() returns (row: seq<SetCall>)
    ensures RowFacts(row, 2)
  {
    row := [
      SetHead("Generator Mode", 2),
      SetValue("Set Generator    OFF AUTO ON EQ", 2, 1, BOOL),
      SetValue("Gen under/over   speed", 2, 2, BOOL),
      SetValue("Generator start  error", 2, 3, BOOL),
      SetValue("Generator sync   error", 2, 4, BOOL),
      SetValue("Gen max run Time error", 2, 5, BOOL),
      SetValue("Load Amp Start   ready", 2, 6, BOOL),
      SetValue("Voltage Start    ready", 2, 7, BOOL),
      SetValue("Exercise Start   ready", 2, 8, BOOL)
    ];
  }

  method Engineering() returns (row: seq<SetCall>)
    ensures RowFacts(row, 3)
  {
    row := [
      SetHead("Engineering", 3),
      SetInfo("Press reset now  for defaults", 3, 1),
      SetValue("Revision 4.01", 3, 2, BOOL),
      SetInfo("5916 195th St NE Arlington, WA", 3, 3),
      SetInfo("98223 USA", 3, 4),
      SetInfo("Ph  360-435-8826 Fax 360-435-2229", 3, 5)
    ];
  }

  method ErrorCauses() returns (row: seq<SetCall>)
    ensures RowFacts(row, 5)
  {
    row := [
      SetHead("Error Causes", 5),
      SetValue("Over Current", 5, 1, BOOL),
      SetValue("Transformer      overtemp", 5, 2, BOOL),
      SetValue("Heatsink         overtemp", 5, 3, BOOL),
      SetValue("High Battery     voltage", 5, 4, BOOL),
      SetValue("Low Battery      voltage", 5, 5, BOOL),
      SetValue("Inverter breaker tripped", 5, 6, BOOL),
      SetValue("Manual Off", 5, 7, BOOL),
      SetValue("AC source wired  to output", 5, 8, BOOL),
      SetValue("External error   (Stacked)", 5, 9, BOOL),
      SetValue("Generator start  error", 5, 10, BOOL),
      SetValue("Generator sync   error", 5, 11, BOOL),
      SetValue("Gen maximum run  time error", 5, 12, BOOL),
      SetValue("Gen Under/Over   speed", 5, 13, BOOL),
      SetValue("Inverter breaker tripped", 5, 14, BOOL)
    ];
  }

  method TimeOfDay() returns (row: seq<SetCall>)
    ensures RowFacts(row, 6)
  {
    row := [
      SetHead("Time of Day", 6),
      SetValue("Time of Day      Set Clock hour", 6, 1, INT),
      SetValue("Set Clock minute", 6, 2, INT),
      SetValue("Set Clock second", 6, 3, INT)
    ];
  }

  method GeneratorTimer() returns (row: seq<SetCall>)
    ensures RowFacts(row, 7)
  {
    row := [
      SetHead("Generator Timer", 7),
      SetValue("Start Quiet      time h:m", 7, 1, INT),
      SetValue("End Quiet        time h:m", 7, 2, INT)
    ];
  }

  method EndUserMenu() returns (row: seq<SetCall>)
    ensures RowFacts(row, 8)
  {
    row := [
      SetHead("END USER MENU", 8)
    ];
  }

  method InverterSetup() returns (row: seq<SetCall>)
    ensures RowFacts(row, 9)
  {
    row := [
      SetHead("Inverter Setup", 9),
      SetInfo("Set Grid Usage", 9, 1),
      SetValue("Set Low battery  cut out VDC", 9, 2, FLOAT),
      SetValue("Set LBCO delay   minutes", 9, 3, INT),
      SetValue("Set Low battery  cut in VDC", 9, 4, FLOAT),
      SetValue("Set High battery cut out VDC", 9, 5, FLOAT),
      SetValue("Set search       watts", 9, 6, INT),
      SetValue("Set search       spacing", 9, 7, INT)
    ];
    assert "Inverter Setup"[..8] == START_WORD;
  }

  method BatteryCharging() returns (row: seq<SetCall>)
    ensures RowFacts(row, 10)
  {
    row := [
      SetHead("Battery Charging", 10),
      SetValue("Set Bulk         volts DC", 10, 1, FLOAT),
      SetValue("Set Absorption   time h:m", 10, 2, INT),
      SetValue("Set Float        volts DC", 10, 3, FLOAT),
      SetValue("Set Equalize     volts DC", 10, 4, FLOAT),
      SetValue("Set Equalize     time h:m", 10, 5, INT),
      SetValue("Set Max Charge   amps DC", 10, 6, INT),
      SetInfo("Set Temp Comp    LeadAcid Nicad", 10, 7)
    ];
  }

  method GenAutoStart() returns (row: seq<SetCall>)
    ensures RowFacts(row, 12)
  {
    row := [
      SetHead("Gen Auto Start   setup", 12),
      SetValue("Set Load Start   amps AC", 12, 1, INT),
      SetValue("Set Load Start   delay min", 12, 2, INT),
      SetValue("Set Load Stop    delay min", 12, 3, INT),
      SetValue("Set 24 hr start  volts DC", 12, 4, FLOAT),
      SetValue("Set 2 hr start   volts DC", 12, 5, FLOAT),
      SetValue("Set 15 min start volts DC", 12, 6, FLOAT),
      SetValue("Read LBCO 30 sec start VDC", 12, 7, INT),
      SetValue("Set Exercise     period days", 12, 8, INT),
      SetValue("Set Maximum run  time h:m", 12, 9, INT),
      SetValue("Set Max Run time to 0 to defeat.", 12, 10, INT),
      SetValue("Set Exercise to 0 to defeat.", 12, 11, INT),
      SetValue("See menu 9 to    to set LBCO.", 12, 12, INT)
    ];
  }

  method GenStarting() returns (row: seq<SetCall>)
    ensures RowFacts(row, 13)
  {
    row := [
      SetHead("Gen starting     details", 13),
      SetValue("Set RY7 Function GlowStop Run", 13, 1, INT),
      SetValue("Set Gen warmup   seconds", 13, 2, INT),
      SetValue("Set Pre Crank    seconds", 13, 3, INT),
      SetValue("Set Max Cranking seconds", 13, 4, INT),
      SetValue("Set Post Crank   seconds", 13, 5, INT)
    ];
  }

  method AuxiliaryRelays() returns (row: seq<SetCall>)
    ensures RowFacts(row, 14)
  {
    row := [
      SetHead("Auxiliary Relays R9 R10 R11", 14),
      SetValue("Set Relay 9      volts DC", 14, 1, INT),
      SetValue("R9 Hysteresis    volts DC", 14, 2, INT),
      SetValue("Set Relay 10     volts DC", 14, 3, FLOAT),
      SetValue("R10 Hysteresis   volts DC", 14, 4, INT),
      SetValue("Set Relay 11     volts DC", 14, 5, INT),
      SetValue("R11 Hysteresis   volts DC", 14, 6, INT),
      SetInfo("Close on batt >  setpoint.", 14, 7),
      SetInfo("Open  on  batt < setpoint - Hys", 14, 8),
      SetInfo("Relays have 2    second delay on", 14, 9),
      SetInfo("Close, 0.1 sec   delay on open", 14, 10)
    ];
  }

  method BulkChargeTimer() returns (row: seq<SetCall>)
    ensures RowFacts(row, 15)
  {
    row := [
      SetHead("Bulk Charge      Trigger Timer", 15),
      SetValue("Set Start Bulk   time", 15, 1, INT),
      SetInfo("To disable timer set to 00:00", 15, 2),
      SetInfo("If grid timer    active set bulk", 15, 3),
      SetInfo("time after start charge time.", 15, 4),
      SetInfo("In SLT mode don't disable this", 15, 5),
      SetInfo("timer. It is the daily chg time.", 15, 6)
    ];
  }

  method LowBatteryTransfer() returns (row: seq<SetCall>)
    ensures RowFacts(row, 16)
  {
    row := [
      SetHead("Low Battery      Transfer (LBX)", 16),
      SetValue("Set Low Battery  TransferVDC", 16, 1, FLOAT),
      SetValue("Set Low Battery  cut in  VDC", 16, 2, FLOAT),
      SetInfo("See menu 9 to    enable LBX mode.", 16, 3),
      SetInfo("Make sure LBX is above LBCO volts.", 16, 4)
    ];
  }

  method BatterySelling() returns (row: seq<SetCall>)
    ensures RowFacts(row, 17)
  {
    row := [
      SetHead("Battery Selling", 17),
      SetValue("Set Battery Sell volts", 17, 1, FLOAT),
      SetValue("Set Max Sell     amps", 17, 2, INT),
      SetInfo("See menu 9 to    enable SELL mode.", 17, 3),
      SetInfo("Make sure LBX is above LBCO volts.", 17, 4)
    ];
  }

  method GridUsageTimer() returns (row: seq<SetCall>)
    ensures RowFacts(row, 18)
  {
    row := [
      SetHead("Grid Usage Timer", 18),
      SetValue("Set Charge       time", 18, 1, INT),
      SetValue("End Charge       time", 18, 2, INT),
      SetInfo("After Start      Charge time:", 18, 3),
      SetInfo("SELL mode        charges battery.", 18, 4),
      SetInfo("FLT mode         charges battery", 18, 5),
      SetInfo("After End Charge time:", 18, 6),
      SetInfo("SELL mode sells  battery to AC1.", 18, 7),
      SetInfo("FLT mode drops   AC1 and inverts", 18, 8),
      SetInfo("Timer on when    start < > end;", 18, 9),
      SetInfo("timer off when   start = end", 18, 10),
      SetInfo("Sell and float   modes use timer", 18, 11),
      SetInfo("SLT and LBX mode ignore timer", 18, 12)
    ];
  }

  method InformationFile() returns (row: seq<SetCall>)
    ensures RowFacts(row, 19)
  {
    row := [
      SetHead("Information file battery", 19),
      SetInfo("Batt temp comp   changes battery", 19, 1),
      SetInfo("voltage reading  away from actual", 19, 2),
      SetInfo("HBCO resets at:  6v/48, 3v/24 and", 19, 3),
      SetInfo("1.5v/12v under   HBCO.", 19, 4),
      SetInfo("LowBattTransfer  used in LBX, FLT", 19, 5),
      SetInfo("Modes only. Goes back to battery", 19, 6),
      SetInfo("at LowBattCutIn  (aka LBCI).", 19, 7),
      SetInfo("For LBX mode set below LBCI so", 19, 8),
      SetInfo("charger won't    cycle batteries", 19, 9),
      SetInfo("up and down and  set LBCO below.", 19, 10)
    ];
  }

  method EndSetupMenu() returns (row: seq<SetCall>)
    ensures RowFacts(row, 20)
  {
    row := [
      SetHead("END SETUP MENU", 20)
    ];
  }

  /** Two items of this row carry the indices of the heading: its second one was meant to go elsewhere. */
  function AcInputsRow(): (row: seq<SetCall>)
    ensures |row| == 6
  {
    [
      SetHead("AC Inputs", 11),
      SetHead("inverter synced  to that input.", 11),
      SetValue("Set Grid (AC1)   amps AC", 11, 1, INT),
      SetValue("Set Gen (AC2)    amps AC", 11, 2, INT),
      SetValue("Set Input lower  limit VAC", 11, 3, INT),
      SetValue("Set Input upper  limit VAC", 11, 4, INT)
    ]
  }

  method AcInputs() returns (row: seq<SetCall>)
    ensures row == AcInputsRow() && RowFacts(row, AC_INPUTS)
  {
    row := AcInputsRow();
  }

  function MetersRow(): (row: seq<SetCall>)
    ensures |row| == 17
  {
    [
      SetHead("Meters", 4),
      SetValue("Inverter/charger amps AC", 4, 1, INT),
      SetValue("Input            amps AC", 4, 2, INT),
      SetValue("Load             amps AC", 4, 3, INT),
      SetValue("Battery actual   volts DC", 4, 4, FLOAT),
      SetValue("Battery TempComp volts DC", 4, 5, FLOAT),
      SetValue("Inverter         volts AC", 4, 6, INT),
      SetValue("Grid (AC1)       volts AC", 4, 7, INT),
      SetValue("Generator (AC2)  volts AC", 4, 8, INT),
      SetValue("Read Frequency   Hertz", 4, 9, INT),
      SetInfo("AC1 & AC2 volts  valid only when", 4, 10),
      SetInfo("inverter synced  to that input.", 4, 11),
      SetInfo("Batt volt actual is used for", 4, 12),
      SetInfo("LBCO,HBCO,LBX,   LBCI,sell volts", 4, 13),
      SetInfo("and gen starting", 4, 14),
      SetInfo("Batt volt temp   comp is used,", 4, 15),
      SetInfo("for float, bulk, eq & aux relays", 4, 16)
    ]
  }

  /** Where a test for a word succeeds, the first three letters of the word are. */
  predicate Letters(text: string, pos: nat, word: string)
    requires |word| >= 3
  {
    Has(text, pos, word) ==>
      pos + |word| <= |text| && text[pos] == word[0] && text[pos + 1] == word[1] && text[pos + 2] == word[2]
  }

  lemma HasLetters(text: string, pos: nat, word: string)
    requires |word| >= 3
    ensures Letters(text, pos, word)
  {
    if Has(text, pos, word) {
      var sub := Substr(text, pos, |word|).value;
      assert sub[0] == word[0] && sub[1] == word[1] && sub[2] == word[2];
    }
  }

  lemma AllLetters(text: string)
    ensures Letters(text, 0, "Load") && Letters(text, 8, "actual") && Letters(text, 8, "TempComp")
    ensures Letters(text, 0, "Inverter") && Letters(text, 0, "Grid") && Letters(text, 0, "Generator")
    ensures Letters(text, 0, "Read Freq")
  {
    HasLetters(text, 0, "Load");
    HasLetters(text, 8, "actual");
    HasLetters(text, 8, "TempComp");
    HasLetters(text, 0, "Inverter");
    HasLetters(text, 0, "Grid");
    HasLetters(text, 0, "Generator");
    HasLetters(text, 0, "Read Freq");
  }

  lemma QuietIf(text: string)
    requires forall i | 0 <= i < |text| && IsDigit(text[i]) :: i > 0 && text[i - 1] != ' '
    ensures Quiet(text)
  {
    var s := PREFIX + text;
    forall k: nat, c: char | Mark(s, k, c) ensures !IsDigit(c) {
      assert k >= |PREFIX| ==> s[k] == text[k - |PREFIX|];
      assert k + 1 >= |PREFIX| ==> s[k + 1] == text[k + 1 - |PREFIX|];
    }
  }

  lemma InputLabel()
    ensures Selects("Input            amps AC", 2)
  {
    var text := "Input            amps AC";
    AllLetters(text);
  }

  lemma LoadLabel()
    ensures Selects("Load             amps AC", 3)
  {
    var text := "Load             amps AC";
    AllLetters(text);
    assert text[0..4] == "Load";
  }

  lemma ActualLabel()
    ensures Selects("Battery actual   volts DC", 4)
  {
    var text := "Battery actual   volts DC";
    AllLetters(text);
    assert text[8..14] == "actual";
  }

  lemma TempCompLabel()
    ensures Selects("Battery TempComp volts DC", 5)
  {
    var text := "Battery TempComp volts DC";
    AllLetters(text);
    assert text[8..16] == "TempComp";
  }

  lemma InverterLabel()
    ensures Selects("Inverter         volts AC", 6)
  {
    var text := "Inverter         volts AC";
    AllLetters(text);
    assert text[0..8] == "Inverter";
  }

  lemma GridLabel()
    ensures Selects("Grid (AC1)       volts AC", 7)
  {
    var text := "Grid (AC1)       volts AC";
    AllLetters(text);
    assert text[0..4] == "Grid";
  }

  lemma GeneratorLabel()
    ensures Selects("Generator (AC2)  volts AC", 8)
  {
    var text := "Generator (AC2)  volts AC";
    AllLetters(text);
    assert text[0..9] == "Generator";
  }

  lemma FrequencyLabel()
    ensures Selects("Read Frequency   Hertz", 9)
  {
    var text := "Read Frequency   Hertz";
    AllLetters(text);
    assert text[0..9] == "Read Freq";
  }

  lemma FirstLabelsQuiet()
    ensures Quiet("Input            amps AC")
    ensures Quiet("Load             amps AC")
    ensures Quiet("Battery actual   volts DC")
    ensures Quiet("Battery TempComp volts DC")
  {
    QuietIf("Input            amps AC");
    QuietIf("Load             amps AC");
    QuietIf("Battery actual   volts DC");
    QuietIf("Battery TempComp volts DC");
  }

  lemma LastLabelsQuiet()
    ensures Quiet("Inverter         volts AC")
    ensures Quiet("Grid (AC1)       volts AC")
    ensures Quiet("Generator (AC2)  volts AC")
    ensures Quiet("Read Frequency   Hertz")
  {
    QuietIf("Inverter         volts AC");
    QuietIf("Grid (AC1)       volts AC");
    QuietIf("Generator (AC2)  volts AC");
    QuietIf("Read Frequency   Hertz");
  }

  lemma FirstMetersSelect(i: nat)
    requires 2 <= i <= 5
    ensures Selects(MetersRow()[i].text, i) && Quiet(MetersRow()[i].text)
  {
    FirstLabelsQuiet();
    match i {
      case 2 => InputLabel();
      case 3 => LoadLabel();
      case 4 => ActualLabel();
      case _ => TempCompLabel();
    }
  }

  lemma LastMetersSelect(i: nat)
    requires 6 <= i <= 9
    ensures Selects(MetersRow()[i].text, i) && Quiet(MetersRow()[i].text)
  {
    LastLabelsQuiet();
    match i {
      case 6 => InverterLabel();
      case 7 => GridLabel();
      case 8 => GeneratorLabel();
      case _ => FrequencyLabel();
    }
  }

  lemma MetersSelect(i: nat)
    requires 2 <= i <= 9
    ensures Selects(MetersRow()[i].text, i) && Quiet(MetersRow()[i].text)
  {
    if i <= 5 {
      FirstMetersSelect(i);
    } else {
      LastMetersSelect(i);
    }
  }

  /** Letters that label `j` of the meters menu does not have. */
  predicate Missing(j: nat, c: char) {
    match j
    case 0 => c == '&' || c == '(' || c == '/' || c == 'B' || c == 'F' || c == 'I' || c == 'L' || c == 'T' || c == 'u'
    case 1 => c == '&' || c == '(' || c == 'B' || c == 'F' || c == 'L' || c == 'M' || c == 'T' || c == 'o' || c == 'u'
    case 2 => c == '&' || c == '(' || c == '/' || c == 'B' || c == 'F' || c == 'L' || c == 'M' || c == 'T' || c == 'v'
    case 3 => c == '&' || c == '(' || c == '/' || c == 'B' || c == 'F' || c == 'I' || c == 'M' || c == 'T' || c == 'u'
    case 4 => c == '&' || c == '(' || c == '/' || c == 'F' || c == 'I' || c == 'L' || c == 'M' || c == 'T'
    case 5 => c == '&' || c == '(' || c == '/' || c == 'F' || c == 'I' || c == 'L' || c == 'M' || c == 'u'
    case 6 => c == '&' || c == '(' || c == '/' || c == 'B' || c == 'F' || c == 'L' || c == 'M' || c == 'T' || c == 'u'
    case 7 => c == '&' || c == '/' || c == 'B' || c == 'F' || c == 'I' || c == 'L' || c == 'M' || c == 'T' || c == 'n' || c == 'u'
    case 8 => c == '&' || c == '/' || c == 'B' || c == 'F' || c == 'I' || c == 'L' || c == 'M' || c == 'T' || c == 'i' || c == 'u'
    case 9 => c == '&' || c == '(' || c == '/' || c == 'B' || c == 'I' || c == 'L' || c == 'M' || c == 'T'
    case _ => c == '(' || c == '/' || c == 'B' || c == 'F' || c == 'I' || c == 'L' || c == 'M' || c == 'T' || c == 'u'
  }

  /** Where label `i` has a letter that label `j` is missing. */
  function Telltale(i: nat, j: nat): nat {
    match i
    case 0 => 0
    case 1 => 8
    case 2 => if j == 4 || j == 9 then 0 else 3
    case 3 => 0
    case 4 => if j == 5 then 11 else 0
    case 5 => 8
    case 6 => if j == 1 then 18 else if j == 2 then 2 else 0
    case 7 => if j == 8 then 2 else 5
    case 8 => if j == 7 then 2 else 10
    case 9 => 5
    case _ => 4
  }

  lemma Letters0()
    ensures var text := "Meters";
            && (forall k | 0 <= k < |text| :: !Missing(0, text[k]))
            && text[0] == 'M'
  {
  }

  lemma Letters1()
    ensures var text := "Inverter/charger amps AC";
            && (forall k | 0 <= k < |text| :: !Missing(1, text[k]))
            && text[8] == '/'
  {
  }

  lemma Letters2()
    ensures var text := "Input            amps AC";
            && (forall k | 0 <= k < |text| :: !Missing(2, text[k]))
            && text[0] == 'I' && text[3] == 'u'
  {
  }

  lemma Letters3()
    ensures var text := "Load             amps AC";
            && (forall k | 0 <= k < |text| :: !Missing(3, text[k]))
            && text[0] == 'L'
  {
  }

  lemma Letters4()
    ensures var text := "Battery actual   volts DC";
            && (forall k | 0 <= k < |text| :: !Missing(4, text[k]))
            && text[0] == 'B' && text[11] == 'u'
  {
  }

  lemma Letters5()
    ensures var text := "Battery TempComp volts DC";
            && (forall k | 0 <= k < |text| :: !Missing(5, text[k]))
            && text[8] == 'T'
  {
  }

  lemma Letters6()
    ensures var text := "Inverter         volts AC";
            && (forall k | 0 <= k < |text| :: !Missing(6, text[k]))
            && text[0] == 'I' && text[2] == 'v' && text[18] == 'o'
  {
  }

  lemma Letters7()
    ensures var text := "Grid (AC1)       volts AC";
            && (forall k | 0 <= k < |text| :: !Missing(7, text[k]))
            && text[2] == 'i' && text[5] == '('
  {
  }

  lemma Letters8()
    ensures var text := "Generator (AC2)  volts AC";
            && (forall k | 0 <= k < |text| :: !Missing(8, text[k]))
            && text[2] == 'n' && text[10] == '('
  {
  }

  lemma Letters9()
    ensures var text := "Read Frequency   Hertz";
            && (forall k | 0 <= k < |text| :: !Missing(9, text[k]))
            && text[5] == 'F'
  {
  }

  lemma Letters10()
    ensures var text := "AC1 & AC2 volts  valid only when";
            && (forall k | 0 <= k < |text| :: !Missing(10, text[k]))
            && text[4] == '&'
  {
  }

  /** The letter at the telltale place belongs to label `i` and is missing from label `j`. */
  lemma TelltaleTells(i: nat, j: nat)
    requires i <= 10 && j <= 10 && i != j
    ensures Telltale(i, j) < |MetersRow()[i].text| && Missing(j, MetersRow()[i].text[Telltale(i, j)])
  {
    match i {
      case 0 => Letters0();
      case 1 => Letters1();
      case 2 => Letters2();
      case 3 => Letters3();
      case 4 => Letters4();
      case 5 => Letters5();
      case 6 => Letters6();
      case 7 => Letters7();
      case 8 => Letters8();
      case 9 => Letters9();
      case _ => Letters10();
    }
  }

  lemma NothingMissing(j: nat, k: nat)
    requires j <= 10 && k < |MetersRow()[j].text|
    ensures !Missing(j, MetersRow()[j].text[k])
  {
    if j <= 4 {
      NothingMissingFirst(j, k);
    } else {
      NothingMissingLast(j, k);
    }
  }

  lemma NothingMissingFirst(j: nat, k: nat)
    requires j <= 4 && k < |MetersRow()[j].text|
    ensures !Missing(j, MetersRow()[j].text[k])
  {
    match j {
      case 0 => Letters0();
      case 1 => Letters1();
      case 2 => Letters2();
      case 3 => Letters3();
      case _ => Letters4();
    }
  }

  lemma NothingMissingLast(j: nat, k: nat)
    requires 5 <= j <= 10 && k < |MetersRow()[j].text|
    ensures !Missing(j, MetersRow()[j].text[k])
  {
    match j {
      case 5 => Letters5();
      case 6 => Letters6();
      case 7 => Letters7();
      case 8 => Letters8();
      case 9 => Letters9();
      case _ => Letters10();
    }
  }

  lemma MissingIsLetter(j: nat, c: char)
    requires Missing(j, c)
    ensures !IsDigit(c) && c != '.' && c !in PREFIX
  {
  }

  lemma MetersApart(i: nat, j: nat)
    requires i <= 10 && j <= 10 && i != j
    ensures Foreign(MetersRow()[j].text, MetersRow()[i].text)
  {
    TelltaleTells(i, j);
    var c := MetersRow()[i].text[Telltale(i, j)];
    MissingIsLetter(j, c);
    if c in MetersRow()[j].text {
      var k :| 0 <= k < |MetersRow()[j].text| && MetersRow()[j].text[k] == c;
      NothingMissing(j, k);
    }
    assert IsForeign(MetersRow()[j].text, MetersRow()[i].text[Telltale(i, j)]);
  }

  method Meters() returns (row: seq<SetCall>)
    ensures row == MetersRow() && RowFacts(row, METERS) && MetersFacts(row)
  {
    row := MetersRow();
    MetersRowFacts();
  }

  lemma MetersKind(i: nat)
    requires i < |MetersRow()|
    ensures MetersRow()[i].x == METERS && (i > 0 ==> !MetersRow()[i].SetHead? && MetersRow()[i].y == i)
    ensures 2 <= i <= INFO_ITEM ==> KindOfCall(MetersRow()[i]) == KindOf(i)
  {
  }

  lemma MetersRowCalls()
    ensures RowFacts(MetersRow(), METERS)
    ensures MetersRow()[1].SetValue? && MetersRow()[INFO_ITEM].SetInfo?
    ensures forall i: nat | 2 <= i <= INFO_ITEM :: KindOfCall(MetersRow()[i]) == KindOf(i)
  {
    forall i | 0 <= i < |MetersRow()|
      ensures MetersRow()[i].x == METERS && (i > 0 ==> !MetersRow()[i].SetHead? && MetersRow()[i].y == i)
      ensures 2 <= i <= INFO_ITEM ==> KindOfCall(MetersRow()[i]) == KindOf(i)
    {
      MetersKind(i);
    }
  }

  lemma MetersRowFacts()
    ensures RowFacts(MetersRow(), METERS) && MetersFacts(MetersRow())
  {
    MetersRowCalls();
    forall i: nat | 2 <= i < INFO_ITEM ensures Selects(MetersRow()[i].text, i) && Quiet(MetersRow()[i].text) {
      MetersSelect(i);
    }
    forall i: nat, j: nat | i <= INFO_ITEM && j <= INFO_ITEM && i != j
      ensures Foreign(MetersRow()[j].text, MetersRow()[i].text)
    {
      MetersApart(i, j);
    }
  }

  method ModeMenus() returns (rows: Calls)
    ensures |rows| == 4 && forall h | 0 <= h < 4 :: RowFacts(rows[h], h)
  {
    var row0 := TopOfMenu();
    var row1 := InverterMode();
    var row2 := GeneratorMode();
    var row3 := Engineering();
    rows := [row0, row1, row2, row3];
  }

  method StateMenus(meters: seq<SetCall>) returns (rows: Calls)
    requires RowFacts(meters, METERS)
    ensures |rows| == 5 && rows[0] == meters && forall h | 0 <= h < 5 :: RowFacts(rows[h], METERS + h)
  {
    var row5 := ErrorCauses();
    var row6 := TimeOfDay();
    var row7 := GeneratorTimer();
    var row8 := EndUserMenu();
    rows := [meters, row5, row6, row7, row8];
  }

  method SetupMenu() returns (rows: Calls)
    ensures |rows| == 12 && (forall h | 0 <= h < 12 :: RowFacts(rows[h], 9 + h))
    ensures rows[AC_INPUTS - 9] == AcInputsRow()
  {
    var row9 := InverterSetup();
    var row10 := BatteryCharging();
    var row11 := AcInputs();
    var row12 := GenAutoStart();
    var row13 := GenStarting();
    var row14 := AuxiliaryRelays();
    var row15 := BulkChargeTimer();
    var row16 := LowBatteryTransfer();
    var row17 := BatterySelling();
    var row18 := GridUsageTimer();
    var row19 := InformationFile();
    var row20 := EndSetupMenu();
    rows := [row9, row10, row11, row12, row13, row14, row15, row16, row17, row18, row19, row20];
  }

  method TheCalls() returns (calls: Calls)
    ensures MenuFacts(calls) && calls[METERS] == MetersRow()
  {
    var modes := ModeMenus();
    var meters := Meters();
    var states := StateMenus(meters);
    var setup := SetupMenu();
    calls := modes + states + setup;
    PutTogether(modes, meters, states, setup);
  }

  lemma PutTogether(modes: Calls, meters: seq<SetCall>, states: Calls, setup: Calls)
    requires |modes| == 4 && forall h | 0 <= h < 4 :: RowFacts(modes[h], h)
    requires |states| == 5 && states[0] == meters && MetersFacts(meters)
    requires forall h | 0 <= h < 5 :: RowFacts(states[h], METERS + h)
    requires |setup| == 12 && setup[AC_INPUTS - 9] == AcInputsRow()
    requires forall h | 0 <= h < 12 :: RowFacts(setup[h], 9 + h)
    ensures var calls := modes + states + setup; MenuFacts(calls) && calls[METERS] == meters
  {
    var calls := modes + states + setup;
    forall h | 0 <= h < 21 ensures RowFacts(calls[h], h) {
      assert 4 <= h < 9 ==> calls[h] == states[h - 4];
      assert h >= 9 ==> calls[h] == setup[h - 9];
    }
  }

  /** One call after the other on the same object, and a copy of it pushed onto the row. */
  method PushRow(mi: MenuItemObject, calls: seq<SetCall>) returns (row: seq<MenuItem>)
    modifies mi
    ensures row == StoredRow(calls)
  {
    row := [];
    var i := 0;
    while i < |calls|
      invariant 0 <= i <= |calls| && row == StoredRow(calls[..i])
    {
      match calls[i] {
        case SetHead(text, x) => mi.SetHead(text, x);
        case SetInfo(text, x, y) => mi.SetInfo(text, x, y);
        case SetValue(text, x, y, kind) => mi.SetValue(text, x, y, kind);
      }
      row := row + [mi.Item()];
      i := i + 1;
    }
    assert calls[..i] == calls;
  }

  method PushRows(calls: Calls) returns (items: Items)
    ensures items == StoredRows(calls)
  {
    var mi := new MenuItemObject();
    items := [];
    var h := 0;
    while h < |calls|
      invariant 0 <= h <= |calls| && items == StoredRows(calls[..h])
    {
      var row := PushRow(mi, calls[h]);
      items := items + [row];
      h := h + 1;
    }
    assert calls[..h] == calls;
  }

  method SetDefaultValues() returns (items: Items, ghost calls: Calls)
    ensures MenuFacts(calls) && calls[METERS] == MetersRow()
    ensures items == StoredRows(calls)
  {
    var all := TheCalls();
    calls := all;
    items := PushRows(all);
  }

  // ----- what the host finds -----

  /** Two trees whose rows hold their own heading only are searched row by row. */
  lemma RowsOfCalls(calls: Calls)
    requires MenuFacts(calls)
    ensures RowsApart(StoredRows(calls), 0) && RowsApart(MeantRows(calls), 0)
  {
    forall h, i | 0 <= h < |calls| && 0 <= i < |calls[h]| ensures calls[h][i].x == h {
      assert RowFacts(calls[h], h);
    }
  }

  /** What GetItem finds in the tree that is stored, for all indices. No line of information is ever found. In the AC
      inputs menu the second heading item pushes the others one place back, and is itself never found. */
  lemma StoredLookup(calls: Calls, x: nat, y: nat)
    requires MenuFacts(calls)
    ensures var place := if x == AC_INPUTS && y > 0 then y + 1 else y;
            Lookup(StoredRows(calls), x, y) ==
            if x < 21 && place < |calls[x]| && !calls[x][place].SetInfo? then Some(Stored(calls[x][place])) else None
  {
    RowsOfCalls(calls);
    LookupIsInRow(StoredRows(calls), 0, x, y);
    if x == AC_INPUTS {
      StoredInAcInputs(y);
    } else if x < 21 {
      StoredInRow(calls[x], x, y);
    }
  }

  lemma StoredInRow(row: seq<SetCall>, x: nat, y: nat)
    requires RowFacts(row, x) && x != AC_INPUTS
    ensures InRow(StoredRow(row), x, y) == if y < |row| && !row[y].SetInfo? then Some(Stored(row[y])) else None
  {
    if y < |row| && !row[y].SetInfo? {
      InRowFirst(StoredRow(row), x, y, y);
    } else {
      InRowNone(StoredRow(row), x, y);
    }
  }

  lemma StoredInAcInputs(y: nat)
    ensures var row := AcInputsRow(); var place := if y > 0 then y + 1 else y;
            InRow(StoredRow(row), AC_INPUTS, y) == if place < |row| then Some(Stored(row[place])) else None
  {
    var row := AcInputsRow();
    var place := if y > 0 then y + 1 else y;
    if place < |row| {
      InRowFirst(StoredRow(row), AC_INPUTS, y, place);
    } else {
      InRowNone(StoredRow(row), AC_INPUTS, y);
    }
  }

  /** No line of information is ever found: it is stored with the indices of its heading, and the heading comes first. */
  lemma InfoIsNeverFound(calls: Calls, h: nat, i: nat, x: nat, y: nat)
    requires MenuFacts(calls) && h < 21 && i < |calls[h]| && calls[h][i].SetInfo?
    ensures var items := StoredRows(calls);
            && items[h][i].headidx == h && items[h][i].itemidx == 0
            && Lookup(items, h, 0) == Some(Stored(calls[h][0]))
            && Lookup(items, x, y) != Some(items[h][i])
    ensures h != AC_INPUTS ==> Lookup(StoredRows(calls), h, i).None?
  {
    assert RowFacts(calls[h], h);
    StoredLookup(calls, h, 0);
    StoredLookup(calls, h, i);
    StoredLookup(calls, x, y);
  }

  /** The second item of the AC inputs menu is a heading item, and no search finds it either. */
  lemma DuplicateIsHidden(calls: Calls, x: nat, y: nat)
    requires MenuFacts(calls)
    ensures var dup := StoredRows(calls)[AC_INPUTS][1];
            && dup.headidx == AC_INPUTS && dup.itemidx == 0 && dup.kind == MENUHEAD
            && Lookup(StoredRows(calls), x, y) != Some(dup)
  {
    StoredLookup(calls, x, y);
    var row := AcInputsRow();
    assert row[0].text[0] == 'A' && row[1].text[0] == 'i';
    assert x < 21 ==> RowFacts(calls[x], x);
  }

  /** What GetItem would find with the indices that the calls ask for, in all rows but the AC inputs. */
  lemma MeantLookup(calls: Calls, x: nat, y: nat)
    requires MenuFacts(calls) && x < 21 && x != AC_INPUTS
    ensures Lookup(MeantRows(calls), x, y) == if y < |calls[x]| then Some(Meant(calls[x][y])) else None
  {
    RowsOfCalls(calls);
    assert RowFacts(calls[x], x);
    LookupFinds(MeantRows(calls), x, y);
  }

  // ----- the facts give what the navigation relies on -----

  /** The inverter names its headings as the calls do, and has the meters menu that they describe. */
  ghost predicate InverterAgrees(w: World, calls: Calls) {
    && |w.menu| == |calls|
    && (forall h | 0 <= h < |calls| :: |w.menu[h]| > 0 && |calls[h]| > 0 && w.menu[h][0].text == calls[h][0].text)
    && METERS < |calls| && w.menu[METERS] == FaceRow(calls[METERS])
  }

  /** The tree that the program stores, and an inverter that agrees with the calls. */
  ghost predicate Shipped(w: World, calls: Calls) {
    MenuFacts(calls) && w.items == StoredRows(calls) && InverterAgrees(w, calls)
  }

  /** The tree that was meant. */
  ghost predicate AsMeant(w: World, calls: Calls) {
    MenuFacts(calls) && w.items == MeantRows(calls) && InverterAgrees(w, calls)
  }

  lemma HidesStart(text: string)
    requires NoV(text)
    ensures !Contains(text, START_WORD)
  {
    if Contains(text, START_WORD) {
      assert START_WORD[2] == 'v';
      ContainsCharacters(text, START_WORD, 'v');
    }
  }

  lemma FactsStartMenu(w: World, calls: Calls)
    requires MenuFacts(calls) && InverterAgrees(w, calls)
    ensures StartMenu(w)
  {
    forall h: nat | 1 <= h ensures ShowsStart(w, Cursor(h, 0)) <==> h == 1 || h == 9 {
      if h < 21 {
        var text := w.menu[h][0].text;
        assert RowFacts(calls[h], h);
        if h == 1 || h == 9 {
          assert OccursAt(text, START_WORD, 0);
        } else {
          HidesStart(text);
        }
      } else {
        HidesStart("");
      }
    }
  }

  /** The label tests pick exactly the field of the item. */
  lemma SelectsAssigns(text: string, i: nat, m: MeterData, iv: int, fv: real, hz: int)
    requires Selects(text, i)
    ensures AssignDown(m, text, iv, fv) == Some(Field(i, m, iv, fv))
    ensures AssignUp(m, text, iv, fv, hz) == Some(FieldUp(i, m, iv, fv, hz))
  {
    assert |Substr(text, 0, 4).value| == 4;
  }

  /** The host finds the item that call `i` of the meters row describes. */
  ghost predicate FindsMeter(w: World, calls: Calls, i: nat) {
    && METERS < |calls| && i < |calls[METERS]|
    && Lookup(w.items, METERS, i) == Some(MenuItem(calls[METERS][i].text, METERS, i, KindOfCall(calls[METERS][i])))
  }

  lemma FactsNumberItem(w: World, calls: Calls, i: nat)
    requires MenuFacts(calls) && InverterAgrees(w, calls) && 2 <= i < INFO_ITEM && FindsMeter(w, calls, i)
    ensures NumberItem(w, i)
  {
    var text := calls[METERS][i].text;
    assert Selects(text, i);
    forall m, iv, fv ensures AssignDown(m, text, iv, fv) == Some(Field(i, m, iv, fv)) {
      SelectsAssigns(text, i, m, iv, fv, 0);
    }
    forall m, iv, fv, hz ensures AssignUp(m, text, iv, fv, hz) == Some(FieldUp(i, m, iv, fv, hz)) {
      SelectsAssigns(text, i, m, iv, fv, hz);
    }
  }

  lemma FactsApart(w: World, calls: Calls, i: nat)
    requires MenuFacts(calls) && InverterAgrees(w, calls) && i <= INFO_ITEM && FindsMeter(w, calls, i)
    ensures Apart(w, i)
  {
    var row := calls[METERS];
    var text := row[i].text;
    assert |text| > 0 by {
      assert Foreign(row[if i == 0 then 1 else 0].text, text);
    }
    forall j: nat, t: nat | j <= INFO_ITEM ensures Contains(Shows(w, t, Cursor(METERS, j)), text) <==> j == i {
      assert TextAt(w, Cursor(METERS, j)) == row[j].text;
      if j == i {
        ShowsOwnText(w, t, Cursor(METERS, j));
      } else {
        assert Foreign(row[j].text, text);
        ShowsNoForeign(w, t, Cursor(METERS, j), text);
      }
    }
  }

  lemma FactsNumbersMenu(w: World, calls: Calls)
    requires MenuFacts(calls) && InverterAgrees(w, calls)
    requires forall i: nat | 2 <= i < INFO_ITEM :: FindsMeter(w, calls, i)
    ensures NumbersMenu(w)
  {
    forall i: nat | 2 <= i < INFO_ITEM ensures NumberItem(w, i) && Apart(w, i) {
      assert FindsMeter(w, calls, i);
      FactsNumberItem(w, calls, i);
      FactsApart(w, calls, i);
    }
  }

  lemma StoredMeter(w: World, calls: Calls, i: nat)
    requires Shipped(w, calls) && 1 <= i < INFO_ITEM
    ensures FindsMeter(w, calls, i)
  {
    StoredLookup(calls, METERS, i);
    assert RowFacts(calls[METERS], METERS);
    assert KindOf(i) != INFO && (i > 1 ==> KindOfCall(calls[METERS][i]) == KindOf(i));
  }

  lemma MeantMeter(w: World, calls: Calls, i: nat)
    requires AsMeant(w, calls) && 1 <= i <= INFO_ITEM
    ensures FindsMeter(w, calls, i)
  {
    MeantLookup(calls, METERS, i);
    assert RowFacts(calls[METERS], METERS);
  }

  /** In the tree that is stored the number items of the meters menu are there, and item 10 is not. */
  lemma FactsStoredMeters(w: World, calls: Calls)
    requires Shipped(w, calls)
    ensures NumbersMenu(w) && Lookup(w.items, METERS, INFO_ITEM).None?
  {
    forall i: nat | 2 <= i < INFO_ITEM ensures FindsMeter(w, calls, i) {
      StoredMeter(w, calls, i);
    }
    FactsNumbersMenu(w, calls);
    assert KindOfCall(calls[METERS][INFO_ITEM]) == KindOf(INFO_ITEM);
    assert RowFacts(calls[METERS], METERS);
    StoredLookup(calls, METERS, INFO_ITEM);
  }

  /** In the tree that was meant item 10 is there too. */
  lemma FactsMeantMeters(w: World, calls: Calls)
    requires AsMeant(w, calls)
    ensures MetersMenu(w)
  {
    forall i: nat | 2 <= i <= INFO_ITEM ensures FindsMeter(w, calls, i) {
      MeantMeter(w, calls, i);
    }
    FactsNumbersMenu(w, calls);
    FactsApart(w, calls, INFO_ITEM);
    assert KindOfCall(calls[METERS][INFO_ITEM]) == KindOf(INFO_ITEM);
  }

  // ----- polling -----

  /** Polling with the tree that the program stores: it is defined exactly for at most one loop, and then safe. */
  lemma DefaultPolling(w: World, calls: Calls, s: Session, n: nat) returns (ts: seq<nat>)
    requires Shipped(w, calls) && KeysForPoll(w, s)
    ensures PollMeters(w, s, n).Some? <==> n <= 1
    ensures n <= 1 ==> PolledWell(w, s, n, ts)
  {
    FactsStartMenu(w, calls);
    FactsStoredMeters(w, calls);
    ts := PollsOnceExactly(w, s, n);
  }

  /** As the program runs: one loop, from any user menu, with every key obeyed. */
  lemma DefaultPollsOnce(w: World, calls: Calls, s: Session) returns (ts: seq<nat>)
    requires Shipped(w, calls) && AllObeyed(w, s.device.clock) && 1 <= s.device.at.heading <= 9
    ensures PolledWell(w, s, 1, ts)
  {
    FactsStartMenu(w, calls);
    FactsStoredMeters(w, calls);
    ts := PollsFromAnyUserMenu(w, s);
  }

  /** The failing input: two loops. */
  lemma TwoLoopsFail(w: World, calls: Calls, s: Session)
    requires Shipped(w, calls) && KeysForPoll(w, s)
    ensures PollMeters(w, s, 2).None?
  {
    var ts := DefaultPolling(w, calls, s, 2);
  }

  /** Polling with the item indices that were meant: safe for any number of loops. */
  lemma MeantPolling(w: World, calls: Calls, s: Session, n: nat) returns (ts: seq<nat>)
    requires AsMeant(w, calls) && KeysForPoll(w, s)
    ensures PolledWell(w, s, n, ts)
  {
    FactsStartMenu(w, calls);
    FactsMeantMeters(w, calls);
    ts := PollMetersIsSafe(w, s, n);
  }

  /** Self-stabilisation in the meters menu of the tree that is stored, up to its last number item. */
  lemma DefaultStabilises(w: World, calls: Calls, s: Session, n: nat)
    requires Shipped(w, calls) && s.menuheading == METERS && SameHeading(s)
    requires Lag(s) >= 0 && s.menuitem + n < INFO_ITEM && AllObeyed(w, s.device.clock)
    ensures var r := ItemsMinus(w, s, n);
            && r.menuheading == METERS && SameHeading(r) && r.menuitem == s.menuitem + n
            && Lag(r) == (if Lag(s) <= 4 * n then 0 else Lag(s) - 4 * n)
  {
    FactsStoredMeters(w, calls);
    forall target: nat | s.menuitem < target <= s.menuitem + n
      ensures Distinct(w, METERS, target, s.device.at.item, target)
    {
      StoredMeter(w, calls, target);
      FactsApart(w, calls, target);
      DistinctFrom(w, METERS, target, 0, s.device.at.item, INFO_ITEM, target);
    }
    MinusStabilises(w, s, n);
  }

  lemma StartsWithWord(text: string)
    requires START_WORD <= text
    ensures Contains(text, START_WORD)
  {
    assert OccursAt(text, START_WORD, 0);
  }

  lemma AmpsHasWord()
    ensures START_WORD <= "Inverter/charger amps AC"
  {
  }

  lemma VoltsHasWord()
    ensures START_WORD <= "Inverter         volts AC"
  {
  }

  lemma MetersShowStart(w: World, calls: Calls, i: nat)
    requires Shipped(w, calls) && calls[METERS] == MetersRow() && (i == 1 || i == 6)
    ensures ShowsStart(w, Cursor(METERS, i))
  {
    MeterHasWord(i);
    StartsWithWord(MetersRow()[i].text);
    FaceOfMeter(w, calls, i);
  }

  lemma MeterHasWord(i: nat)
    requires i == 1 || i == 6
    ensures START_WORD <= MetersRow()[i].text
  {
    AmpsHasWord();
    VoltsHasWord();
  }

  lemma FaceOfMeter(w: World, calls: Calls, i: nat)
    requires InverterAgrees(w, calls) && i < |calls[METERS]|
    ensures TextAt(w, Cursor(METERS, i)) == calls[METERS][i].text
  {
  }

  /** A failing run of the shipped program: the inverter shows its own amps or volts in the meters menu, and ignores the
      first key. GotoMenuItem then takes it to be in the meters menu while its three heading keys lead it three
      headings to the right. */
  lemma LostKeyMissesMeters(w: World, calls: Calls, s: Session, i: nat)
    requires Shipped(w, calls) && calls[METERS] == MetersRow()
    requires (i == 1 || i == 6) && s.device.at == Cursor(METERS, i)
    requires !w.obeys(s.device.clock) && ObeyedFor(w, s.device.clock + 1, METERS - 1)
    ensures var g := GotoMenuStart(w, s); g.menuheading == 1 && g.device.at == Cursor(METERS, i)
    ensures var r := GotoMenuItem(w, s, METERS, FIRST);
            r.menuheading == METERS && r.device.at == Cursor(2 * METERS - 1, 0)
  {
    FactsStartMenu(w, calls);
    MetersShowStart(w, calls, i);
    LostKeyStrandsStart(w, s);
    var g := GotoMenuStart(w, s);
    ObeyedAll(w, g.device.clock, g.device.clock + (METERS - 1));
    GotoHeadingOnly(w, g, METERS, FIRST);
    HeadingsPlusMoves(w, g, METERS - 1);
  }
}
