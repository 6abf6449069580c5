/** The class XantrexUI (devices/xantrex-trace.cc): its methods change the cursor and the display, and the inverter
    at the other end of the link. Each is proved against the function of the same name. */
module XantrexUIClass {
  import opened Text
  import opened Display
  import opened Menu
  import opened DefaultMenu
  import N = Navigation
  import P = Polling

  class XantrexUI {
    const world: World
    var menuheading: nat
    var menuitem: nat
    var menudisp: string
    var device: Inverter

    ghost function Now(): N.Session
      reads this
    {
      N.Session(menuheading, menuitem, menudisp, device)
    }

    constructor (menu: Faces, obeys: nat -> bool, amps: (nat, Cursor) -> Readings, volts: (nat, Cursor) -> Numerals,
                 atof: string -> real, at: Cursor)
      ensures exists calls :: MenuFacts(calls) && calls[P.METERS] == MetersRow() && world.items == StoredRows(calls)
      ensures world == World(world.items, menu, obeys, amps, volts, atof)
      ensures device == Inverter(at, 0)
    {
      var items, calls := SetDefaultValues();
      world := World(items, menu, obeys, amps, volts, atof);
      menuheading, menuitem, menudisp := 0, 0, "";
      device := Inverter(at, 0);
    }

    method Write(key: Key)
      modifies this`device
      ensures device == Press(world, old(device), key)
    {
      device := Press(world, device, key);
    }

    method ReadSerial()
      modifies this`menudisp
      ensures menudisp == Shows(world, device.clock, device.at)
    {
      menudisp := Shows(world, device.clock, device.at);
    }

    method GetLabel() returns (r: string)
      ensures r == N.Expected(world, Now())
    {
      var ti := GetItem(world.items, menuheading, menuitem);
      r := if ti.Some? then ti.value.text else "";
    }

    method MenuHeadingMinus()
      modifies this
      ensures Now() == N.MenuHeadingMinus(world, old(Now()))
    {
      Write(L);
      ReadSerial();
      if menuheading > 1 {
        menuheading := menuheading - 1;
      }
      menuitem := 0;
    }

    method MenuHeadingPlus()
      modifies this
      ensures Now() == N.MenuHeadingPlus(world, old(Now()))
    {
      Write(R);
      ReadSerial();
      menuheading := menuheading + 1;
      menuitem := 0;
    }

    method MenuItemMinus()
      modifies this
      ensures Now() == N.MenuItemMinus(world, old(Now()))
    {
      var retries := N.RETRIES;
      menuitem := menuitem + 1;
      ghost var start, until := Now(), device.clock + N.RETRIES;
      while retries > 0
        invariant device.clock + retries == until
        invariant N.Seek(world, start, D, until) == N.Seek(world, Now(), D, until)
      {
        retries := retries - 1;
        Write(D);
        ReadSerial();
        var text := GetLabel();
        if |text| > 0 && Contains(menudisp, text) {
          return;
        }
      }
    }

    method MenuItemPlus()
      modifies this
      ensures Now() == N.MenuItemPlus(world, old(Now()))
    {
      var retries := N.RETRIES;
      if menuitem > 1 {
        menuitem := menuitem - 1;
      }
      ghost var start, until := Now(), device.clock + N.RETRIES;
      while retries > 0
        invariant device.clock + retries == until
        invariant N.Seek(world, start, U, until) == N.Seek(world, Now(), U, until)
      {
        retries := retries - 1;
        Write(U);
        ReadSerial();
        var text := GetLabel();
        if Contains(menudisp, text) {
          return;
        }
      }
    }

    method GotoMenuStart()
      modifies this
      ensures Now() == N.GotoMenuStart(world, old(Now()))
    {
      var i := 0;
      ghost var start, until := Now(), device.clock + N.START_TRIES;
      while i < N.START_TRIES
        invariant 0 <= i <= N.START_TRIES && device.clock + N.START_TRIES - i == until
        invariant N.SeekStart(world, start, until) == N.SeekStart(world, Now(), until)
      {
        Write(L);
        ReadSerial();
        if Contains(menudisp, "Inverter") {
          break;
        }
        i := i + 1;
      }
      assert SeekStartDone(start, until) by {
        if i < N.START_TRIES {
          assert Contains(menudisp, "Inverter");
        }
      }
      menuheading := 1;
      menuitem := 0;
    }

    ghost predicate SeekStartDone(start: N.Session, until: nat)
      reads this
    {
      N.SeekStart(world, start, until) == Now()
    }

    method GotoMenuItem(mh: nat, mi: nat)
      modifies this
      ensures Now() == N.GotoMenuItem(world, old(Now()), mh, mi)
    {
      GotoMenuStart();
      HeadingsPlus(mh);
      ItemsMinus(mi);
      menuheading := mh;
      menuitem := mi;
    }

    /** The first loop of GotoMenuItem. */
    method HeadingsPlus(mh: nat)
      modifies this
      ensures Now() == N.HeadingsPlus(world, old(Now()), N.Before(mh))
    {
      ghost var s0 := Now();
      var i: nat := 0;
      while i < mh - 1
        invariant i <= N.Before(mh) && Now() == N.HeadingsPlus(world, s0, i)
      {
        MenuHeadingPlus();
        i := i + 1;
      }
    }

    /** The body of the second loop of GotoMenuItem. */
    method NextItemMinus(ghost s0: N.Session, ghost i: nat)
      requires Now() == N.ItemsMinus(world, s0, i)
      modifies this
      ensures Now() == N.ItemsMinus(world, s0, i + 1)
    {
      N.ItemsMinusNext(world, s0, i);
      MenuItemMinus();
    }

    /** The second loop of GotoMenuItem. */
    method ItemsMinus(mi: nat)
      modifies this
      ensures Now() == N.ItemsMinus(world, old(Now()), N.Before(mi))
    {
      ghost var s0 := Now();
      var i: nat := 0;
      while i < mi - 1
        invariant i <= N.Before(mi) && Now() == N.ItemsMinus(world, s0, i)
      {
        NextItemMinus(s0, i);
        i := i + 1;
      }
    }

    /** The first inner loop of PollMeters; None when a label test throws. */
    method PollDown(items: nat) returns (r: Option<P.MeterData>)
      modifies this
      ensures match P.Down(world, P.Pass(old(Now()), P.BLANK), items + 1)
              case None => r.None?
              case Some(q) => r == Some(q.m) && Now() == q.s
    {
      var downdata := P.BLANK;
      var i: nat := P.FIRST;
      ghost var p := P.Pass(Now(), downdata);
      while i <= P.FIRST + items
        invariant P.FIRST <= i <= P.FIRST + items + 1
        invariant P.Down(world, p, items + 1)
               == P.Down(world, P.Pass(Now(), downdata), P.FIRST + items + 1 - i)
      {
        ghost var from := Now();
        MenuItemMinus();
        P.DownNext(world, P.Pass(from, downdata), P.FIRST + items - i);
        var str := menudisp;
        if |str| > 1 {
          var ti := GetItem(world.items, menuheading, menuitem);
          if ti.None? {
            return None;
          }
          if ti.value.kind == INFO {
            return Some(downdata);
          }
          var m := P.AssignDown(downdata, ti.value.text, P.IntOf(ti.value.kind, str), P.FloatOf(world, ti.value.kind, str));
          if m.None? {
            return None;
          }
          downdata := m.value;
        }
        i := i + 1;
      }
      r := Some(downdata);
    }

    /** The body of the second inner loop of PollMeters. */
    method StepUp(updata: P.MeterData, hertz: int) returns (r: Option<P.MeterData>)
      modifies this
      ensures var st := P.UpStep(world, N.MenuItemPlus(world, old(Now())), updata, hertz);
              if st.Next? then Now() == st.p.s && r == Some(st.p.m) else st.Throw? && r.None?
    {
      MenuItemPlus();
      var str := menudisp;
      if |str| == 0 {
        return Some(updata);
      }
      var ti := GetItem(world.items, menuheading, menuitem);
      if ti.None? {
        return None;
      }
      r := P.AssignUp(updata, ti.value.text, P.IntOf(ti.value.kind, str), P.FloatOf(world, ti.value.kind, str), hertz);
    }

    /** The second inner loop of PollMeters. */
    method PollUp(hertz: int, items: nat) returns (r: Option<P.MeterData>)
      modifies this
      ensures match P.Up(world, P.Pass(old(Now()), P.BLANK), hertz, items)
              case None => r.None?
              case Some(q) => r == Some(q.m) && Now() == q.s
    {
      var updata := P.BLANK;
      var i: nat := P.FIRST + items;
      ghost var p := P.Pass(Now(), updata);
      while i > P.FIRST
        invariant P.FIRST <= i <= P.FIRST + items
        invariant P.Up(world, p, hertz, items) == P.Up(world, P.Pass(Now(), updata), hertz, i - P.FIRST)
      {
        ghost var from := Now();
        var m := StepUp(updata, hertz);
        P.UpNext(world, P.Pass(from, updata), hertz, i - P.FIRST - 1);
        if m.None? {
          return None;
        }
        updata := m.value;
        i := i - 1;
      }
      r := Some(updata);
    }

    method PollMeters(loops: nat) returns (r: Option<seq<P.MeterData>>)
      modifies this
      ensures match P.PollMeters(world, old(Now()), loops)
              case None => r.None?
              case Some(q) => r == Some(q.meters) && Now() == q.s
    {
      var meters := [];
      GotoMenuItem(P.METERS, P.FIRST);
      ghost var p := P.Poll(Now(), []);
      var done := 0;
      while done < loops
        invariant done <= loops
        invariant P.Loops(world, p, done, P.ITEMS) == Some(P.Poll(Now(), meters))
      {
        ghost var q := P.Poll(Now(), meters);
        var downdata := PollDown(P.ITEMS);
        if downdata.None? {
          P.LoopsThrow(world, P.ITEMS, p, done + 1, loops);
          return None;
        }
        var updata := PollUp(downdata.value.hertz, P.ITEMS);
        if updata.None? {
          P.LoopsThrow(world, P.ITEMS, p, done + 1, loops);
          return None;
        }
        meters := meters + [downdata.value, updata.value];
        assert meters == q.meters + [downdata.value, updata.value];
        done := done + 1;
      }
      MenuHeadingPlus();
      MenuHeadingMinus();
      r := Some(meters);
    }
  }
}
