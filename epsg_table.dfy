/**
 * The ANSI array of the EPSG dialect adapter (MS-Access identifier followed by its ANSI name,
 * 20 pairs) and the facts about its strings on which the rewriting theorems rest: every
 * MS-Access identifier is bracketed and occurs once, every ANSI name is bracket-free, and no
 * ANSI name occurs inside an MS-Access identifier.
 */
module EpsgTable {
  import opened JavaText
  import opened EpsgRewrite

  const AccessName0 := "[Alias]"
  const AnsiName0 := "epsg_alias"
  const AccessName1 := "[Area]"
  const AnsiName1 := "epsg_area"
  const AccessName2 := "[Coordinate Axis]"
  const AnsiName2 := "epsg_coordinateaxis"
  const AccessName3 := "[Coordinate Axis Name]"
  const AnsiName3 := "epsg_coordinateaxisname"
  const AccessName4 := "[Coordinate_Operation]"
  const AnsiName4 := "epsg_coordoperation"
  const AccessName5 := "[Coordinate_Operation Method]"
  const AnsiName5 := "epsg_coordoperationmethod"
  const AccessName6 := "[Coordinate_Operation Parameter]"
  const AnsiName6 := "epsg_coordoperationparam"
  const AccessName7 := "[Coordinate_Operation Parameter Usage]"
  const AnsiName7 := "epsg_coordoperationparamusage"
  const AccessName8 := "[Coordinate_Operation Parameter Value]"
  const AnsiName8 := "epsg_coordoperationparamvalue"
  const AccessName9 := "[Coordinate_Operation Path]"
  const AnsiName9 := "epsg_coordoperationpath"
  const AccessName10 := "[Coordinate Reference System]"
  const AnsiName10 := "epsg_coordinatereferencesystem"
  const AccessName11 := "[Coordinate System]"
  const AnsiName11 := "epsg_coordinatesystem"
  const AccessName12 := "[Datum]"
  const AnsiName12 := "epsg_datum"
  const AccessName13 := "[Ellipsoid]"
  const AnsiName13 := "epsg_ellipsoid"
  const AccessName14 := "[Naming System]"
  const AnsiName14 := "epsg_namingsystem"
  const AccessName15 := "[Prime Meridian]"
  const AnsiName15 := "epsg_primemeridian"
  const AccessName16 := "[Supersession]"
  const AnsiName16 := "epsg_supersession"
  const AccessName17 := "[Unit of Measure]"
  const AnsiName17 := "epsg_unitofmeasure"
  const AccessName18 := "[Version History]"
  const AnsiName18 := "epsg_versionhistory"
  const AccessName19 := "[ORDER]"
  const AnsiName19 := "coord_axis_order"

  /** The ANSI array, in source order: MS-Access names at even indices, ANSI names at odd ones. */
  const Ansi: seq<string> := [
    AccessName0, AnsiName0,
    AccessName1, AnsiName1,
    AccessName2, AnsiName2,
    AccessName3, AnsiName3,
    AccessName4, AnsiName4,
    AccessName5, AnsiName5,
    AccessName6, AnsiName6,
    AccessName7, AnsiName7,
    AccessName8, AnsiName8,
    AccessName9, AnsiName9,
    AccessName10, AnsiName10,
    AccessName11, AnsiName11,
    AccessName12, AnsiName12,
    AccessName13, AnsiName13,
    AccessName14, AnsiName14,
    AccessName15, AnsiName15,
    AccessName16, AnsiName16,
    AccessName17, AnsiName17,
    AccessName18, AnsiName18,
    AccessName19, AnsiName19
  ]

  /** The only ANSI name that is a column rather than a table; setSchema leaves it alone. */
  const AxisOrderColumn := "coord_axis_order"

  /**
   * The facts checked on each MS-Access name: it is bracketed, and its only '_', if any, sits at
   * index 11 right after an 'e' (the "[Coordinate_Operation..." names).
   */
  predicate KeyFacts(k: string) {
    Bracketed(k) && forall i :: 0 <= i < |k| && k[i] == '_' ==> i == 11 && k[10] == 'e'
  }

  /** The two prefixes every ANSI name starts with. */
  const EpsgPrefix := "epsg_"
  const CoordPrefix := "coord_"

  /** The facts checked on each ANSI name: it is bracket-free and starts with "epsg_" or "coord_". */
  predicate ValueFacts(v: string) {
    BracketFree(v) && (EpsgPrefix <= v || CoordPrefix <= v)
  }

  /** Row `n` of the flat array `a` has both facts and a key that no earlier row has. */
  predicate RowOk(a: seq<string>, n: nat)
    requires 2 * n + 1 < |a|
  {
    KeyFacts(a[2 * n]) && ValueFacts(a[2 * n + 1])
    && forall j :: 0 <= j < n ==> a[2 * j] != a[2 * n]
  }

  /** Every row of `a` from row `n` on is RowOk. */
  predicate RowsFrom(a: seq<string>, n: nat)
    decreases |a| - 2 * n
  {
    2 * n + 1 >= |a| || (RowOk(a, n) && RowsFrom(a, n + 1))
  }

  /** RowsFrom, unfolded into a statement about every row. */
  lemma {:induction false} RowsFromEvery(a: seq<string>, n: nat)
    requires RowsFrom(a, n)
    ensures forall m :: n <= m && 2 * m + 1 < |a| ==> RowOk(a, m)
    decreases |a| - 2 * n
  {
    if 2 * n + 1 < |a| {
      RowsFromEvery(a, n + 1);
    }
  }

  lemma AccessName0Facts() ensures KeyFacts(AccessName0) {}
  lemma AnsiName0Facts() ensures ValueFacts(AnsiName0) {}
  lemma AccessName1Facts() ensures KeyFacts(AccessName1) {}
  lemma AnsiName1Facts() ensures ValueFacts(AnsiName1) {}
  lemma AccessName2Facts() ensures KeyFacts(AccessName2) {}
  lemma AnsiName2Facts() ensures ValueFacts(AnsiName2) {}
  lemma AccessName3Facts() ensures KeyFacts(AccessName3) {}
  lemma AnsiName3Facts() ensures ValueFacts(AnsiName3) {}
  lemma AccessName4Facts() ensures KeyFacts(AccessName4) {}
  lemma AnsiName4Facts() ensures ValueFacts(AnsiName4) {}
  lemma AccessName5Facts() ensures KeyFacts(AccessName5) {}
  lemma AnsiName5Facts() ensures ValueFacts(AnsiName5) {}
  lemma AccessName6Facts() ensures KeyFacts(AccessName6) {}
  lemma AnsiName6Facts() ensures ValueFacts(AnsiName6) {}
  lemma AccessName7Facts() ensures KeyFacts(AccessName7) {}
  lemma AnsiName7Facts() ensures ValueFacts(AnsiName7) {}
  lemma AccessName8Facts() ensures KeyFacts(AccessName8) {}
  lemma AnsiName8Facts() ensures ValueFacts(AnsiName8) {}
  lemma AccessName9Facts() ensures KeyFacts(AccessName9) {}
  lemma AnsiName9Facts() ensures ValueFacts(AnsiName9) {}
  lemma AccessName10Facts() ensures KeyFacts(AccessName10) {}
  lemma AnsiName10Facts() ensures ValueFacts(AnsiName10) {}
  lemma AccessName11Facts() ensures KeyFacts(AccessName11) {}
  lemma AnsiName11Facts() ensures ValueFacts(AnsiName11) {}
  lemma AccessName12Facts() ensures KeyFacts(AccessName12) {}
  lemma AnsiName12Facts() ensures ValueFacts(AnsiName12) {}
  lemma AccessName13Facts() ensures KeyFacts(AccessName13) {}
  lemma AnsiName13Facts() ensures ValueFacts(AnsiName13) {}
  lemma AccessName14Facts() ensures KeyFacts(AccessName14) {}
  lemma AnsiName14Facts() ensures ValueFacts(AnsiName14) {}
  lemma AccessName15Facts() ensures KeyFacts(AccessName15) {}
  lemma AnsiName15Facts() ensures ValueFacts(AnsiName15) {}
  lemma AccessName16Facts() ensures KeyFacts(AccessName16) {}
  lemma AnsiName16Facts() ensures ValueFacts(AnsiName16) {}
  lemma AccessName17Facts() ensures KeyFacts(AccessName17) {}
  lemma AnsiName17Facts() ensures ValueFacts(AnsiName17) {}
  lemma AccessName18Facts() ensures KeyFacts(AccessName18) {}
  lemma AnsiName18Facts() ensures ValueFacts(AnsiName18) {}
  lemma AccessName19Facts() ensures KeyFacts(AccessName19) {}
  lemma AnsiName19Facts() ensures ValueFacts(AnsiName19) {}

  lemma RowAt0() ensures Ansi[0] == AccessName0 && Ansi[1] == AnsiName0 {}
  lemma RowsFrom0() ensures RowsFrom(Ansi, 0) { RowsFrom1(); AccessName0Facts(); AnsiName0Facts(); RowAt0(); }
  lemma RowAt1() ensures Ansi[2] == AccessName1 && Ansi[3] == AnsiName1 && forall j :: 0 <= j < 1 ==> Ansi[2 * j] != Ansi[2] {}
  lemma RowsFrom1() ensures RowsFrom(Ansi, 1) { RowsFrom2(); AccessName1Facts(); AnsiName1Facts(); RowAt1(); }
  lemma RowAt2() ensures Ansi[4] == AccessName2 && Ansi[5] == AnsiName2 && forall j :: 0 <= j < 2 ==> Ansi[2 * j] != Ansi[4] {}
  lemma RowsFrom2() ensures RowsFrom(Ansi, 2) { RowsFrom3(); AccessName2Facts(); AnsiName2Facts(); RowAt2(); }
  lemma RowAt3() ensures Ansi[6] == AccessName3 && Ansi[7] == AnsiName3 && forall j :: 0 <= j < 3 ==> Ansi[2 * j] != Ansi[6] {}
  lemma RowsFrom3() ensures RowsFrom(Ansi, 3) { RowsFrom4(); AccessName3Facts(); AnsiName3Facts(); RowAt3(); }
  lemma RowAt4() ensures Ansi[8] == AccessName4 && Ansi[9] == AnsiName4 && forall j :: 0 <= j < 4 ==> Ansi[2 * j] != Ansi[8] {}
  lemma RowsFrom4() ensures RowsFrom(Ansi, 4) { RowsFrom5(); AccessName4Facts(); AnsiName4Facts(); RowAt4(); }
  lemma RowAt5() ensures Ansi[10] == AccessName5 && Ansi[11] == AnsiName5 && forall j :: 0 <= j < 5 ==> Ansi[2 * j] != Ansi[10] {}
  lemma RowsFrom5() ensures RowsFrom(Ansi, 5) { RowsFrom6(); AccessName5Facts(); AnsiName5Facts(); RowAt5(); }
  lemma RowAt6() ensures Ansi[12] == AccessName6 && Ansi[13] == AnsiName6 && forall j :: 0 <= j < 6 ==> Ansi[2 * j] != Ansi[12] {}
  lemma RowsFrom6() ensures RowsFrom(Ansi, 6) { RowsFrom7(); AccessName6Facts(); AnsiName6Facts(); RowAt6(); }
  lemma RowAt7() ensures Ansi[14] == AccessName7 && Ansi[15] == AnsiName7 && forall j :: 0 <= j < 7 ==> Ansi[2 * j] != Ansi[14] {}
  lemma RowsFrom7() ensures RowsFrom(Ansi, 7) { RowsFrom8(); AccessName7Facts(); AnsiName7Facts(); RowAt7(); }
  lemma RowAt8() ensures Ansi[16] == AccessName8 && Ansi[17] == AnsiName8 && forall j :: 0 <= j < 8 ==> Ansi[2 * j] != Ansi[16] {}
  lemma RowsFrom8() ensures RowsFrom(Ansi, 8) { RowsFrom9(); AccessName8Facts(); AnsiName8Facts(); RowAt8(); }
  lemma RowAt9() ensures Ansi[18] == AccessName9 && Ansi[19] == AnsiName9 && forall j :: 0 <= j < 9 ==> Ansi[2 * j] != Ansi[18] {}
  lemma RowsFrom9() ensures RowsFrom(Ansi, 9) { RowsFrom10(); AccessName9Facts(); AnsiName9Facts(); RowAt9(); }
  lemma RowAt10() ensures Ansi[20] == AccessName10 && Ansi[21] == AnsiName10 && forall j :: 0 <= j < 10 ==> Ansi[2 * j] != Ansi[20] {}
  lemma RowsFrom10() ensures RowsFrom(Ansi, 10) { RowsFrom11(); AccessName10Facts(); AnsiName10Facts(); RowAt10(); }
  lemma RowAt11() ensures Ansi[22] == AccessName11 && Ansi[23] == AnsiName11 && forall j :: 0 <= j < 11 ==> Ansi[2 * j] != Ansi[22] {}
  lemma RowsFrom11() ensures RowsFrom(Ansi, 11) { RowsFrom12(); AccessName11Facts(); AnsiName11Facts(); RowAt11(); }
  lemma RowAt12() ensures Ansi[24] == AccessName12 && Ansi[25] == AnsiName12 && forall j :: 0 <= j < 12 ==> Ansi[2 * j] != Ansi[24] {}
  lemma RowsFrom12() ensures RowsFrom(Ansi, 12) { RowsFrom13(); AccessName12Facts(); AnsiName12Facts(); RowAt12(); }
  lemma RowAt13() ensures Ansi[26] == AccessName13 && Ansi[27] == AnsiName13 && forall j :: 0 <= j < 13 ==> Ansi[2 * j] != Ansi[26] {}
  lemma RowsFrom13() ensures RowsFrom(Ansi, 13) { RowsFrom14(); AccessName13Facts(); AnsiName13Facts(); RowAt13(); }
  lemma RowAt14() ensures Ansi[28] == AccessName14 && Ansi[29] == AnsiName14 && forall j :: 0 <= j < 14 ==> Ansi[2 * j] != Ansi[28] {}
  lemma RowsFrom14() ensures RowsFrom(Ansi, 14) { RowsFrom15(); AccessName14Facts(); AnsiName14Facts(); RowAt14(); }
  lemma RowAt15() ensures Ansi[30] == AccessName15 && Ansi[31] == AnsiName15 && forall j :: 0 <= j < 15 ==> Ansi[2 * j] != Ansi[30] {}
  lemma RowsFrom15() ensures RowsFrom(Ansi, 15) { RowsFrom16(); AccessName15Facts(); AnsiName15Facts(); RowAt15(); }
  lemma RowAt16() ensures Ansi[32] == AccessName16 && Ansi[33] == AnsiName16 && forall j :: 0 <= j < 16 ==> Ansi[2 * j] != Ansi[32] {}
  lemma RowsFrom16() ensures RowsFrom(Ansi, 16) { RowsFrom17(); AccessName16Facts(); AnsiName16Facts(); RowAt16(); }
  lemma RowAt17() ensures Ansi[34] == AccessName17 && Ansi[35] == AnsiName17 && forall j :: 0 <= j < 17 ==> Ansi[2 * j] != Ansi[34] {}
  lemma RowsFrom17() ensures RowsFrom(Ansi, 17) { RowsFrom18(); AccessName17Facts(); AnsiName17Facts(); RowAt17(); }
  lemma RowAt18() ensures Ansi[36] == AccessName18 && Ansi[37] == AnsiName18 && forall j :: 0 <= j < 18 ==> Ansi[2 * j] != Ansi[36] {}
  lemma RowsFrom18() ensures RowsFrom(Ansi, 18) { RowsFrom19(); AccessName18Facts(); AnsiName18Facts(); RowAt18(); }
  lemma RowAt19() ensures Ansi[38] == AccessName19 && Ansi[39] == AnsiName19 && forall j :: 0 <= j < 19 ==> Ansi[2 * j] != Ansi[38] {}
  lemma RowsFrom19() ensures RowsFrom(Ansi, 19) { assert RowsFrom(Ansi, 20); AccessName19Facts(); AnsiName19Facts(); RowAt19(); }

  /** Every row of the ANSI array has the key and value facts, and the 20 keys are distinct. */
  lemma AnsiRows()
    ensures |Ansi| == 40
    ensures forall m :: 0 <= m < 20 ==> RowOk(Ansi, m)
  {
    RowsFrom0();
    RowsFromEvery(Ansi, 0);
  }

  /**
   * No ANSI name occurs inside an MS-Access name: the value's prefix puts a '_' at index 4 after
   * a 'g', or at index 5 after a 'd'; an occurrence would line that '_' up with the key's only
   * '_' at index 11, putting the 'g' or 'd' on the key's 'e'.
   */
  lemma ValueNotInKey(k: string, v: string)
    requires KeyFacts(k) && ValueFacts(v)
    ensures Absent(k, v)
  {
    forall p ensures !Occurs(k, v, p) {
      if 0 <= p && p + |v| <= |k| {
        var w := k[p..p + |v|];
        if EpsgPrefix <= v {
          assert v[3] == EpsgPrefix[3] && v[4] == EpsgPrefix[4];
          assert w[3] == k[p + 3] && w[4] == k[p + 4];
        } else {
          assert v[4] == CoordPrefix[4] && v[5] == CoordPrefix[5];
          assert w[4] == k[p + 4] && w[5] == k[p + 5];
        }
      }
    }
  }
}
