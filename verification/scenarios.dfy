/** The behaviour the repository's tests pin down, stated over the model: the
    decoder tables, the connection-string cases, the two-row seeded table, and
    the controller composed with the repository through the pass-through
    service. Each lemma holds for every valid attribute layout. */
module Scenarios {
  import opened Wrappers
  import opened SqlValues
  import opened Conversion
  import A = Attributes
  import opened BaseRepository
  import opened Skills
  import R = SkillRepository
  import C = Controllers
  import opened ScenarioText

  // --------------------------------------------------------------- decoders

  lemma IntToBaseAttributeOfNull(l: A.Layout)
    requires A.ValidLayout(l)
    ensures IntToBaseAttribute(l, Null) == A.None
  {
  }

  lemma IntToBaseAttributeOfKnownNumbers(l: A.Layout)
    requires A.ValidLayout(l)
    ensures IntToBaseAttribute(l, Integer(1)) == A.Strength
    ensures IntToBaseAttribute(l, Integer(2)) == A.Agility
  {
    assert A.Values(l)[1] == 1 && A.Values(l)[2] == 2;
    assert A.IsDefined(l, 1) && A.IsDefined(l, 2);
  }

  /** 999 carries no member in the source's declaration; in any layout where
      it carries none, it decodes to None. */
  lemma IntToBaseAttributeOfUnknownNumber(l: A.Layout)
    requires A.ValidLayout(l) && !A.IsDefined(l, 999)
    ensures IntToBaseAttribute(l, Integer(999)) == A.None
  {
  }

  lemma ParseAbcFails()
    ensures ParseInt32("abc").None?
  {
    assert TrimStart("abc") == "abc";
    assert TrimEnd("abc") == "abc";
    assert !IsDigit("abc"[0]);
  }

  lemma IntToBaseAttributeOfText(l: A.Layout)
    requires A.ValidLayout(l)
    ensures IntToBaseAttribute(l, Text("abc")) == A.None
  {
    ParseAbcFails();
  }

  lemma IntToBoolCases()
    ensures !IntToBool(Null)
    ensures !IntToBool(Integer(0))
    ensures IntToBool(Integer(1))
    ensures IntToBool(Integer(-1))
    ensures IntToBool(Text("1"))
    ensures !IntToBool(Text("abc"))
    ensures !IntToBool(Integer(0x100_0000_0000))
  {
    assert ParseInt32("1") == Some(1) by {
      ParseFormat(1);
      assert FormatInt(1) == "1";
    }
    ParseAbcFails();
  }

  lemma ConnectionStringCases()
    ensures ResolveConnectionString(None, None).Failure?
    ensures ResolveConnectionString(Some("mydb.sqlite"), None) == Success("Data Source=mydb.sqlite")
    ensures ResolveConnectionString(Some("  "), Some("app.db")) == Success("Data Source=app.db")
  {
    assert !IsNullOrWhiteSpace(Some("mydb.sqlite")) by {
      assert !IsWhiteSpace("mydb.sqlite"[0]);
    }
    assert !IsNullOrWhiteSpace(Some("app.db")) by {
      assert !IsWhiteSpace("app.db"[0]);
    }
    assert IsNullOrWhiteSpace(Some("  ")) by {
      assert IsWhiteSpace("  "[0]) && IsWhiteSpace("  "[1]);
    }
    assert DATA_SOURCE_PREFIX + "mydb.sqlite" == "Data Source=mydb.sqlite";
    assert DATA_SOURCE_PREFIX + "app.db" == "Data Source=app.db";
  }

  // ----------------------------------------------------------- seeded table

  function Acrobatics(l: A.Layout): Row
    requires A.ValidLayout(l)
  {
    Row(Some(1), Some("Acrobatics"), Integer(A.ToInt(l, A.Dexterity)), Some("Physical"),
          Integer(0), Some("Movement maneuvers"))
  }

  function Stealth(): Row {
    Row(Some(2), Some("Stealth"), Integer(2), Some("Physical"), Integer(1), Some("Hide from sight"))
  }

  function Seeded(l: A.Layout): seq<Row>
    requires A.ValidLayout(l)
  {
    [Acrobatics(l), Stealth()]
  }

  /** Listing a two-row table decodes the rows that match, in order. */
  lemma ListingOfPair(l: A.Layout, f: Filter, a: Row, b: Row)
    requires A.ValidLayout(l) && ValidFilter(l, f) && TextIsLiteral(f)
    ensures R.GetAllBasicSkills(l, [a, b], f)
            == R.DecodeAll(l, (if R.Matches(l, f, a) then [a] else []) + (if R.Matches(l, f, b) then [b] else []))
  {
    var t := [a, b];
    assert t[1..] == [b];
    assert [b][1..] == [];
    var wa := if R.Matches(l, f, a) then [a] else [];
    var wb := if R.Matches(l, f, b) then [b] else [];
    assert R.Where(l, f, [b]) == wb + R.Where(l, f, []);
    assert R.Where(l, f, t) == wa + R.Where(l, f, [b]);
    assert R.Where(l, f, []) == [];
    assert wb + [] == wb;
    assert R.Where(l, f, t) == wa + wb;
  }

  lemma SeededListsBoth(l: A.Layout)
    requires A.ValidLayout(l)
    ensures |R.GetAllBasicSkills(l, Seeded(l), EMPTY_FILTER)| == 2
    ensures R.GetAllBasicSkills(l, Seeded(l), EMPTY_FILTER) == R.DecodeAll(l, Seeded(l))
  {
    R.EmptyFilterListsAll(l, Seeded(l));
  }

  lemma SeededByName(l: A.Layout)
    requires A.ValidLayout(l)
    ensures var r := R.GetAllBasicSkills(l, Seeded(l), EMPTY_FILTER.(name := Some("acro")));
            |r| == 1 && r[0].name == "Acrobatics"
  {
    var f := EMPTY_FILTER.(name := Some("acro"));
    AcroFacts();
    AcroNotInStealth();
    SearchTermsAreLiteral();
    R.MatchesByField(l, f, Acrobatics(l));
    R.MatchesByField(l, f, Stealth());
    assert R.Matches(l, f, Acrobatics(l));
    assert !R.Matches(l, f, Stealth());
    ListingOfPair(l, f, Acrobatics(l), Stealth());
    var w: seq<Row> := [Acrobatics(l)] + [];
    var r := R.GetAllBasicSkills(l, Seeded(l), f);
    assert r == R.DecodeAll(l, w);
    assert r[0] == R.DecodeRow(l, Acrobatics(l));
  }

  lemma SeededByAttribute(l: A.Layout)
    requires A.ValidLayout(l)
    ensures var r := R.GetAllBasicSkills(l, Seeded(l), EMPTY_FILTER.(baseAttribute := Some(A.Agility)));
            |r| == 1 && r[0].name == "Stealth"
  {
    var f := EMPTY_FILTER.(baseAttribute := Some(A.Agility));
    assert A.ToInt(l, A.Dexterity) != 2;
    R.MatchesByField(l, f, Acrobatics(l));
    R.MatchesByField(l, f, Stealth());
    assert !R.Matches(l, f, Acrobatics(l));
    assert R.Matches(l, f, Stealth());
    ListingOfPair(l, f, Acrobatics(l), Stealth());
    var w: seq<Row> := [] + [Stealth()];
    var r := R.GetAllBasicSkills(l, Seeded(l), f);
    assert r == R.DecodeAll(l, w);
    assert r[0] == R.DecodeRow(l, Stealth());
  }

  lemma SeededByGroup(l: A.Layout)
    requires A.ValidLayout(l)
    ensures var r := R.GetAllBasicSkills(l, Seeded(l), EMPTY_FILTER.(skillGroup := Some("Phys")));
            |r| == 2 && r[0].name == "Acrobatics" && r[1].name == "Stealth"
  {
    var f := EMPTY_FILTER.(skillGroup := Some("Phys"));
    PhysFacts();
    SearchTermsAreLiteral();
    R.MatchesByField(l, f, Acrobatics(l));
    R.MatchesByField(l, f, Stealth());
    assert R.Matches(l, f, Acrobatics(l));
    assert R.Matches(l, f, Stealth());
    ListingOfPair(l, f, Acrobatics(l), Stealth());
    var w: seq<Row> := [Acrobatics(l)] + [Stealth()];
    var r := R.GetAllBasicSkills(l, Seeded(l), f);
    assert r == R.DecodeAll(l, w);
    assert r[0] == R.DecodeRow(l, Acrobatics(l)) && r[1] == R.DecodeRow(l, Stealth());
  }

  lemma SeededByTrainedOnly(l: A.Layout)
    requires A.ValidLayout(l)
    ensures var r := R.GetAllBasicSkills(l, Seeded(l), EMPTY_FILTER.(trainedOnly := Some(true)));
            |r| == 1 && r[0].name == "Stealth"
  {
    var f := EMPTY_FILTER.(trainedOnly := Some(true));
    R.MatchesByField(l, f, Acrobatics(l));
    R.MatchesByField(l, f, Stealth());
    assert !R.Matches(l, f, Acrobatics(l));
    assert R.Matches(l, f, Stealth());
    ListingOfPair(l, f, Acrobatics(l), Stealth());
    var w: seq<Row> := [] + [Stealth()];
    assert w == [Stealth()];
    var r := R.GetAllBasicSkills(l, Seeded(l), f);
    assert r == R.DecodeAll(l, w);
    assert r[0] == R.DecodeRow(l, Stealth());
  }

  lemma SeededByDescription(l: A.Layout)
    requires A.ValidLayout(l)
    ensures var r := R.GetAllBasicSkills(l, Seeded(l), EMPTY_FILTER.(description := Some("hide")));
            |r| == 1 && r[0].name == "Stealth"
  {
    var f := EMPTY_FILTER.(description := Some("hide"));
    HideFacts();
    SearchTermsAreLiteral();
    HideNotInMovement();
    R.MatchesByField(l, f, Acrobatics(l));
    R.MatchesByField(l, f, Stealth());
    assert !R.Matches(l, f, Acrobatics(l));
    assert R.Matches(l, f, Stealth());
    ListingOfPair(l, f, Acrobatics(l), Stealth());
    var w: seq<Row> := [] + [Stealth()];
    var r := R.GetAllBasicSkills(l, Seeded(l), f);
    assert r == R.DecodeAll(l, w);
    assert r[0] == R.DecodeRow(l, Stealth());
  }

  lemma SeededLookupFirst(l: A.Layout)
    requires A.ValidLayout(l)
    ensures R.GetBasicSkillById(l, Seeded(l), 1)
            == Some(Skill(1, "Acrobatics", A.Dexterity, Some("Physical"), false, "Movement maneuvers"))
  {
    IntToBaseAttributeRoundTrip(l, A.Dexterity);
    assert R.FindById(Seeded(l), 1) == Some(0);
    var s := R.DecodeRow(l, Acrobatics(l));
    assert s.baseAttribute == A.Dexterity;
    assert !s.trainedOnly;
  }

  lemma SeededLookupSecond(l: A.Layout)
    requires A.ValidLayout(l)
    ensures R.GetBasicSkillById(l, Seeded(l), 2).Some?
            && R.GetBasicSkillById(l, Seeded(l), 2).value.trainedOnly
  {
    assert R.FindById(Seeded(l), 2) == Some(1);
    assert R.DecodeRow(l, Stealth()).trainedOnly;
  }

  lemma SeededLookup(l: A.Layout)
    requires A.ValidLayout(l)
    ensures R.GetBasicSkillById(l, Seeded(l), 1)
            == Some(Skill(1, "Acrobatics", A.Dexterity, Some("Physical"), false, "Movement maneuvers"))
    ensures R.GetBasicSkillById(l, Seeded(l), 2).Some?
            && R.GetBasicSkillById(l, Seeded(l), 2).value.trainedOnly
    ensures R.GetBasicSkillById(l, Seeded(l), 9999).None?
  {
    SeededLookupFirst(l);
    SeededLookupSecond(l);
  }

  // ------------------------------------------------------------ end to end

  /** The service layer: forwards the id to the repository unchanged. */
  function SkillService(l: A.Layout, table: seq<Row>): int -> Option<Skill>
    requires A.ValidLayout(l)
  {
    id => R.GetBasicSkillById(l, table, id)
  }

  /** The listing service: forwards the filter to the repository unchanged. */
  function ListingService(l: A.Layout, table: seq<Row>): Filter --> seq<Skill>
    requires A.ValidLayout(l)
  {
    f requires ValidFilter(l, f) => R.GetAllBasicSkills(l, table, f)
  }

  /** Through service and repository, a wildcard-free filter is answered
      with 200 carrying the decoding of exactly the rows it accepts, in
      table order. */
  lemma ListingThroughController(l: A.Layout, table: seq<Row>, f: Filter)
    requires A.ValidLayout(l) && ValidFilter(l, f) && TextIsLiteral(f)
    ensures ListingService(l, table).requires(f)
    ensures C.GetAllBasicSkills(ListingService(l, table), f)
            == C.OkObject(C.SkillList(R.DecodeAll(l, R.Where(l, f, table))))
  {
    assert ListingService(l, table)(f) == R.GetAllBasicSkills(l, table, f);
  }

  /** Through service and repository, an id no row carries is answered with
      404, and an id some row carries with 200. */
  lemma MissingIdIsNotFound(l: A.Layout, table: seq<Row>, id: int)
    requires A.ValidLayout(l)
    ensures C.Status(C.GetBasicSkill(SkillService(l, table), id)) == C.STATUS_NOT_FOUND
            <==> forall i :: 0 <= i < |table| ==> table[i].id != Some(id)
    ensures C.Status(C.GetBasicSkill(SkillService(l, table), id)) == C.STATUS_OK
            <==> exists i :: 0 <= i < |table| && table[i].id == Some(id)
  {
    assert SkillService(l, table)(id) == R.GetBasicSkillById(l, table, id);
  }

  lemma SeededMissingIdIsNotFound(l: A.Layout)
    requires A.ValidLayout(l)
    ensures C.GetBasicSkill(SkillService(l, Seeded(l)), 999) == C.NotFoundResult
  {
    assert SkillService(l, Seeded(l))(999) == R.GetBasicSkillById(l, Seeded(l), 999);
  }
}
