/** The IAR flashtest end device: nine user settings kept in a flash
 *  segment (the persistent copy) and mirrored in RAM (the local copy). The
 *  main loop loads them, bumps the first two and saves them back. */
module Settings {
  import opened CTypes

  /** `variable1` to `variable9` (or their `LOCAL` twins): six `unsigned
   *  char`s and three 16-bit `int`s. */
  datatype Vars = Vars(
    v1: byte, v2: byte, v3: int16,
    v4: byte, v5: byte, v6: int16,
    v7: byte, v8: byte, v9: int16)

  /** The local set's initial value: every variable 0. */
  const Zero: Vars := Vars(0, 0, 0, 0, 0, 0, 0, 0, 0)

  /** One main-loop pass on the values: `variable1` goes up by one and
   *  `variable2` down by one, both modulo 256. */
  function Bump(s: Vars): (t: Vars)
    ensures t.v1 as int == (s.v1 + 1) % 0x100 && t.v2 as int == (s.v2 - 1) % 0x100
    ensures t.(v1 := s.v1, v2 := s.v2) == s
  {
    s.(v1 := U8(s.v1 + 1), v2 := U8(s.v2 - 1))
  }

  /** k passes of the main loop. */
  function BumpN(s: Vars, k: nat): Vars
  {
    if k == 0 then s else Bump(BumpN(s, k - 1))
  }

  /** After k passes `variable1` has moved up by k and `variable2` down by
   *  k, modulo 256; the other seven never change. */
  lemma {:induction false} BumpNMoves(s: Vars, k: nat)
    ensures BumpN(s, k).v1 as int == (s.v1 + k) % 0x100
    ensures BumpN(s, k).v2 as int == (s.v2 - k) % 0x100
    ensures BumpN(s, k).(v1 := s.v1, v2 := s.v2) == s
  {
    if k > 0 {
      BumpNMoves(s, k - 1);
      ModAdd(s.v1 + (k - 1), 1);
      ModAdd(s.v2 - (k - 1), -1);
    }
  }

  /** After any multiple of 256 passes the settings are back where they
   *  started. */
  lemma BumpPeriod(s: Vars, k: nat)
    requires k % 0x100 == 0
    ensures BumpN(s, k) == s
  {
    BumpNMoves(s, k);
    var t := BumpN(s, k);
    var q := k / 0x100;
    assert k == q * 0x100;
    Mod256Of(s.v1 + k, q, s.v1);
    Mod256Of(s.v2 - k, -q, s.v2);
    assert t.v1 == s.v1 && t.v2 == s.v2;
  }

  /** The sum of the first two variables stays the same modulo 256 on
   *  every pass. */
  lemma BumpKeepsSum(s: Vars, k: nat)
    ensures (BumpN(s, k).v1 + BumpN(s, k).v2) % 0x100 == (s.v1 + s.v2) % 0x100
  {
    BumpNMoves(s, k);
    var t := BumpN(s, k);
    ModAdd(s.v1 + k, t.v2);
    ModAdd(s.v2 - k, s.v1 + k);
  }

  /** The flash segment and the RAM mirror. */
  class Store {
    var persistent: Vars
    var local: Vars

    /** Power-up: the flash holds whatever was saved last (`flash`), the
     *  locals are 0. */
    constructor (flash: Vars)
      ensures persistent == flash && local == Zero
    {
      persistent := flash;
      local := Zero;
    }

    /** `saveSettings`: each persistent variable takes its local value
     *  (the segment erase before it is not modelled). */
    method SaveSettings()
      modifies this
      ensures persistent == old(local) && local == old(local)
    {
      persistent := persistent.(v1 := local.v1);
      persistent := persistent.(v2 := local.v2);
      persistent := persistent.(v3 := local.v3);
      persistent := persistent.(v4 := local.v4);
      persistent := persistent.(v5 := local.v5);
      persistent := persistent.(v6 := local.v6);
      persistent := persistent.(v7 := local.v7);
      persistent := persistent.(v8 := local.v8);
      persistent := persistent.(v9 := local.v9);
    }

    /** `loadSettings`: each local variable takes its persistent value. */
    method LoadSettings()
      modifies this
      ensures local == old(persistent) && persistent == old(persistent)
    {
      local := local.(v1 := persistent.v1);
      local := local.(v2 := persistent.v2);
      local := local.(v3 := persistent.v3);
      local := local.(v4 := persistent.v4);
      local := local.(v5 := persistent.v5);
      local := local.(v6 := persistent.v6);
      local := local.(v7 := persistent.v7);
      local := local.(v8 := persistent.v8);
      local := local.(v9 := persistent.v9);
    }

    /** One pass of `main`'s loop (the LED toggles and the delay left out):
     *  load, `variable1LOCAL++`, `variable2LOCAL--`, save. */
    method MainLoopIteration()
      modifies this
      ensures persistent == Bump(old(persistent)) && local == persistent
    {
      LoadSettings();
      local := local.(v1 := U8(local.v1 + 1));
      local := local.(v2 := U8(local.v2 - 1));
      SaveSettings();
    }
  }

  /** Saving and then loading leaves the locals as they were. */
  method SaveThenLoad(store: Store)
    modifies store
    ensures store.local == old(store.local) && store.persistent == old(store.local)
  {
    store.SaveSettings();
    store.LoadSettings();
  }

  /** Loading and then saving leaves the flash as it was. */
  method LoadThenSave(store: Store)
    modifies store
    ensures store.persistent == old(store.persistent) && store.local == old(store.persistent)
  {
    store.LoadSettings();
    store.SaveSettings();
  }

  /** k passes of `main`'s loop leave `BumpN` of the flash in both copies. */
  method RunLoop(store: Store, k: nat)
    modifies store
    ensures store.persistent == BumpN(old(store.persistent), k)
    ensures k > 0 ==> store.local == store.persistent
  {
    var n := 0;
    while n < k
      invariant n <= k
      invariant store.persistent == BumpN(old(store.persistent), n)
      invariant n > 0 ==> store.local == store.persistent
    {
      store.MainLoopIteration();
      n := n + 1;
    }
  }
}
