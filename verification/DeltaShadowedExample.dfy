/** Two runs of the program at folder names of the shipped overview, the second of which misses an update. */
module DeltaShadowedExample {
  import opened Prelude
  import opened Text
  import opened Catalog
  import opened DeltaScan
  import opened DeltaRefresh
  import opened DeltaRecovery
  import opened DeltaHistory
  import opened DeltaLimits

  const BASE: string := "EnergyPrices_12.1.D_r3"
  const REVISED: string := "EnergyPrices_12.1.D_r3.1"

  /** The two names as the overview lists them, one right after the other. */
  lemma {:induction false} ShippedNamesShadow()
    ensures Shadowed([BASE, REVISED], REVISED) && FlatDirectory(BASE) && FlatDirectory(REVISED)
  {
    var active := [BASE, REVISED];
    assert REVISED[0..|BASE|] == BASE;
    assert OccursAt(REVISED, BASE, 0);
    assert Contains(REVISED, active[0]);
    assert active[0] != REVISED;
    ShippedNameIsFlat(BASE);
    ShippedNameIsFlat(REVISED);
  }

  lemma {:induction false} ShippedNameIsFlat(f: string)
    requires f in {BASE, REVISED}
    ensures FlatDirectory(f)
  {
    assert |f| < |EVOLUTION|;
    RootFileEnds(f);
  }

  lemma {:induction false} RootFileEnds(name: string)
    ensures IsRootFile(name) ==> name != "" && name[|name| - 1] in {'v', 'p', 'l', 'x', 's'}
  {
  }

  const PRICES: Config := Config("PROD", [BASE, REVISED], map[BASE := "Market", REVISED := "Market"])
  const PRICE_FILE: string := "2026_07_" + REVISED + ".csv"

  /** The file as listed at a time, the log that tells of it, and a site on which everything succeeds. */
  function PriceVersion(time: int): Listed {
    Listed("f1", FileData(PRICE_FILE, 1, 1, Some(time), "h"))
  }

  function PriceLog(time: int): seq<LogRow> {
    [LogRow(Some(PRICE_FILE), None, Some(time))]
  }

  function PriceSite(x: Listed): Environment {
    Environment(_ => Ensured(Returns),
                (g, leaf) => LeafOutcome.Crawled(if g == REVISED && leaf == REVISED then [x] else [], Returns),
                _ => Saved(1, Returns))
  }

  ghost function PriceWorld(t: Tables, time: int): World {
    World(t, map[BASE := [], REVISED := [RemoteFile(PriceVersion(time), time)]], PriceLog(time), [], time)
  }

  ghost function PriceHome(): string -> FolderKey {
    _ => KeyOf("PROD", REVISED)
  }

  lemma {:induction false} PriceRun(t: Tables, time: int, t': Tables) returns (r: Run)
    requires DeltaStep(t, PRICES, PriceLog(time), [], PriceSite(PriceVersion(time)), t')
    ensures var w := PriceWorld(t, time);
            && Listing(w.remote[REVISED]) == [PriceVersion(time)] && FolderOk("PROD", PriceHome(), w, REVISED)
            && RunStep("PROD", PriceHome(), REVISED, w, r, w.(tables := t')) && Serves(w, r, REVISED) && r.cfg == PRICES
  {
    var w := PriceWorld(t, time);
    ShippedNamesShadow();
    PriceFolder(t, time);
    PriceSiteObliges(t, time);
    r := ProgramRunIsRunStep("PROD", PriceHome(), REVISED, w, PRICES, PriceSite(PriceVersion(time)), t');
  }

  lemma {:induction false} PriceFolder(t: Tables, time: int)
    ensures Listing(PriceWorld(t, time).remote[REVISED]) == [PriceVersion(time)]
    ensures FolderOk("PROD", PriceHome(), PriceWorld(t, time), REVISED)
  {
    OneFile(PriceVersion(time));
    assert Listing(PriceWorld(t, time).remote[REVISED]) == [PriceVersion(time)];
  }

  lemma {:induction false} PriceSiteObliges(t: Tables, time: int)
    ensures Obliging("PROD", PriceHome(), REVISED, PriceWorld(t, time), PRICES, PriceSite(PriceVersion(time)))
  {
    var w, e := PriceWorld(t, time), PriceSite(PriceVersion(time));
    PriceFolder(t, time);
    assert BASE != REVISED by {
      assert |BASE| != |REVISED|;
    }
    forall g, leaf | g in PRICES.active
      ensures OwnIds(e.leaf(g, leaf).files, KeyOf("PROD", g), PriceHome())
      ensures forall x :: x in e.leaf(g, leaf).files ==> Dated(x.data, w.clock)
    {
      if !(g == REVISED && leaf == REVISED) {
        assert e.leaf(g, leaf).files == [];
      }
    }
  }

  /** The first run stores the file. */
  lemma {:induction false} PricesStored(t': Tables)
    requires DeltaStep(Tables(map[], map[], 0), PRICES, PriceLog(10), [], PriceSite(PriceVersion(10)), t')
    ensures UpToDate(t', KeyOf("PROD", REVISED), [PriceVersion(10)])
    ensures TablesOk(t') && AtHome(t', PriceHome()) && SegmentApart(t', "PROD", REVISED)
  {
    var t := Tables(map[], map[], 0);
    var r := PriceRun(t, 10, t');
    ShippedNameIsFlat(REVISED);
    FirstRun("PROD", PriceHome(), REVISED, PriceWorld(t, 10), r, PriceWorld(t, 10).(tables := t'));
  }

  /** The second run, after an update that the log reports, does not touch it. */
  lemma {:induction false} PriceUpdateMissed(t: Tables, t': Tables)
    requires UpToDate(t, KeyOf("PROD", REVISED), [PriceVersion(10)])
    requires TablesOk(t) && AtHome(t, PriceHome()) && SegmentApart(t, "PROD", REVISED)
    requires DeltaStep(t, PRICES, PriceLog(20), [], PriceSite(PriceVersion(20)), t')
    ensures Stored(t', KeyOf("PROD", REVISED)) == Rows([PriceVersion(10)])
    ensures !UpToDate(t', KeyOf("PROD", REVISED), [PriceVersion(20)])
  {
    var w := PriceWorld(t, 20);
    var r := PriceRun(t, 20, t');
    ShippedNamesShadow();
    OneFile(PriceVersion(10));
    OneFile(PriceVersion(20));
    UncountedIsNotMarked("PROD", t, r, t', REVISED);
    ServedFolder("PROD", PriceHome(), REVISED, w, r, w.(tables := t'));
    assert Rows([PriceVersion(10)])["f1"] != Rows([PriceVersion(20)])["f1"];
  }

  lemma {:induction false} PriceRowCountsForBase(time: int)
    ensures StandardRecord(PRICES.active, PriceLog(time)[0]) == Some(Record(PRICE_FILE, BASE, time))
  {
    assert PRICE_FILE[8..8 + |BASE|] == BASE;
    assert OccursAt(PRICE_FILE, BASE, 8);
    assert Contains(PRICE_FILE, PRICES.active[0]);
  }

  /** Two runs of the program at the names of the shipped overview. Nothing fails, the update is in the log and counts
      for the other folder, and the revised folder keeps its old version. */
  method ShippedNamesMissUpdate() returns (database: Database)
    ensures fresh(database)
    ensures StandardRecord(PRICES.active, PriceLog(20)[0]) == Some(Record(PRICE_FILE, BASE, 20))
    ensures Stored(database.State(), KeyOf("PROD", REVISED)) == Rows([PriceVersion(10)])
    ensures !UpToDate(database.State(), KeyOf("PROD", REVISED), [PriceVersion(20)])
  {
    PriceRowCountsForBase(20);
    database := new Database();
    ShippedNamesShadow();
    var first := RunDelta(database, PRICES, false, false, Fetched(PriceLog(10), []), PriceSite(PriceVersion(10)));
    PricesStored(database.State());
    ghost var t := database.State();
    var second := RunDelta(database, PRICES, false, false, Fetched(PriceLog(20), []), PriceSite(PriceVersion(20)));
    PriceUpdateMissed(t, database.State());
  }
}
