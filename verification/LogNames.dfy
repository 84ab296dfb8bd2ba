/**
 The table of module names (debug/src/logger.c, debug_logger_module_idx_names): every
 module is found by its own name, although a name is matched by its beginning.
 */
module LogNames {
  import opened LogFlags
  import opened LogReplay

  const MODULE_TEXTS: seq<string> := [
    "PRINT", "CNTRL_PANEL", "USB_DEVICE", "NVRAM", "SYSTEM", "NETWORK", "GPIO", "SCAN",
    "ENGINE", "DPRINTF", "DEVICES", "VIDEO", "JBIG", "HTTP", "FILESYSTEM", "GENERATORS",
    "CONSUMABLES", "OEM", "OEM2", "OEM3", "OEM4", "INTERNAL", "SCANBOX"]

  /** The table of 32 entries, the unused ones at its end empty. */
  function ModuleNames(): (t: seq<Name>)
    ensures |t| == MODULES
  {
    seq(MODULES, i requires 0 <= i < MODULES => if i < |MODULE_TEXTS| then Named(MODULE_TEXTS[i]) else NoName)
  }

  /** The place at which the two names differ. */
  function Place(j: nat, m: nat): nat {
    if m == 5 && j == 3 then 1            // NETWORK, NVRAM
    else if m == 7 && j == 4 then 1       // SCAN, SYSTEM
    else if m == 10 && j == 9 then 1      // DEVICES, DPRINTF
    else if m == 15 && j == 6 then 1      // GENERATORS, GPIO
    else if m == 16 && j == 1 then 1      // CONSUMABLES, CNTRL_PANEL
    else if 18 <= m <= 20 && 17 <= j then 3   // OEM2, OEM3, OEM4
    else if m == 22 && j == 4 then 1      // SCANBOX, SYSTEM
    else if m == 22 && j == 7 then 4      // SCANBOX, SCAN
    else 0
  }

  lemma ModuleFound(m: nat)
    requires m < |MODULE_TEXTS|
    ensures Findable(ModuleNames(), m)
  {
    forall j | 0 <= j < m
      ensures !Matches(MODULE_TEXTS[j], MODULE_TEXTS[m])
    {
      Differ(MODULE_TEXTS[j], MODULE_TEXTS[m], Place(j, m));
    }
  }

  /** So the table meets what the replay asks of the module names. */
  lemma TableIsFindable(subs: seq<seq<Name>>)
    requires ValidNames(Names(ModuleNames(), subs))
    ensures ModulesFindable(Names(ModuleNames(), subs))
  {
    hide Findable;
    forall m | 0 <= m < MODULES && ModuleNames()[m].Named?
      ensures Findable(ModuleNames(), m)
    {
      ModuleFound(m);
    }
  }
}
