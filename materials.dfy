/** The fixed table of thermodynamic constants, one record per material.
    A record is a dictionary from constant name to value: a material carries
    only the constants the table gives it (only water has gas-phase data). */
module Materials {

  import opened Outcomes

  /** The keys of a material record: specific heats of the three phases,
      latent heats of fusion and vaporisation, melting and boiling points. */
  datatype Field = CSolid | CLiquid | CGas | Lf | Lv | TFusion | TBoiling

  type Constants = map<Field, real>

  type Table = map<string, Constants>

  const WaterKey: string := "Agua (H\U{2082}O)"
  const AluminumKey: string := "Aluminio"
  const CopperKey: string := "Cobre"
  const IronKey: string := "Hierro"

  const Water: Constants := map[
    CSolid := 2100.0, CLiquid := 4186.0, CGas := 2010.0,
    Lf := 334000.0, Lv := 2260000.0,
    TFusion := 0.0, TBoiling := 100.0]

  const Aluminum: Constants := map[CSolid := 900.0, CLiquid := 1100.0, Lf := 398000.0, TFusion := 660.0]
  const Copper: Constants := map[CSolid := 385.0, CLiquid := 510.0, Lf := 205000.0, TFusion := 1085.0]
  const Iron: Constants := map[CSolid := 450.0, CLiquid := 820.0, Lf := 272000.0, TFusion := 1538.0]

  /** The default material table. */
  const Default: Table := map[WaterKey := Water, AluminumKey := Aluminum, CopperKey := Copper, IronKey := Iron]

  /** The fields a solid/liquid-only material carries. */
  const MetalFields: set<Field> := {CSolid, CLiquid, Lf, TFusion}

  /** A temperature field, as opposed to a specific or latent heat. */
  predicate IsTemperature(f: Field) {
    f == TFusion || f == TBoiling
  }

  /** Every specific heat and latent heat the record carries is strictly positive. */
  predicate PositiveHeats(k: Constants) {
    forall f :: f in k && !IsTemperature(f) ==> k[f] > 0.0
  }

  /** The same, with zero allowed. */
  predicate NonNegativeHeats(k: Constants) {
    forall f :: f in k && !IsTemperature(f) ==> k[f] >= 0.0
  }

  lemma PositiveIsNonNegative(k: Constants)
    requires PositiveHeats(k)
    ensures NonNegativeHeats(k)
  {
  }

  /** The table has exactly four materials. */
  lemma TableKeys()
    ensures Default.Keys == {WaterKey, AluminumKey, CopperKey, IronKey}
    ensures |Default| == 4
  {
    assert WaterKey[0] == 'A' && AluminumKey[0] == 'A' && CopperKey[0] == 'C' && IronKey[0] == 'H';
    assert WaterKey[1] == 'g' && AluminumKey[1] == 'l';
    assert |{WaterKey, AluminumKey, CopperKey, IronKey}| == 4;
  }

  /** Each key maps to its own record. */
  lemma TableRecords()
    ensures Default[WaterKey] == Water && Default[AluminumKey] == Aluminum
    ensures Default[CopperKey] == Copper && Default[IronKey] == Iron
  {
    TableKeys();
  }

  /** Water carries every constant, with the values of the table. */
  lemma WaterValues()
    ensures Default[WaterKey] == Water
    ensures Water.Keys == {CSolid, CLiquid, CGas, Lf, Lv, TFusion, TBoiling}
    ensures Water[CSolid] == 2100.0 && Water[CLiquid] == 4186.0 && Water[CGas] == 2010.0
    ensures Water[Lf] == 334000.0 && Water[Lv] == 2260000.0
    ensures Water[TFusion] == 0.0 && Water[TBoiling] == 100.0
  {
  }

  /** The three metals carry exactly c_solido, c_liquido, Lf and T_fusion:
      no gas-phase specific heat, no latent heat of vaporisation, no boiling point. */
  lemma MetalsHaveNoGasPhase(name: string)
    requires name in Default && name != WaterKey
    ensures Default[name].Keys == MetalFields
    ensures CGas !in Default[name] && Lv !in Default[name] && TBoiling !in Default[name]
  {
    TableKeys();
    TableRecords();
    var k := Default[name];
    if name == AluminumKey {
      assert k == Aluminum;
    } else if name == CopperKey {
      assert k == Copper;
    } else {
      assert name == IronKey;
      assert k == Iron;
    }
    MetalKeys(k);
  }

  lemma MetalKeys(k: Constants)
    requires k in {Aluminum, Copper, Iron}
    ensures k.Keys == MetalFields
    ensures CGas !in k && Lv !in k && TBoiling !in k
  {
  }

  /** Every specific and latent heat in the table is strictly positive. */
  lemma TableHeatsPositive(name: string)
    requires name in Default
    ensures PositiveHeats(Default[name])
  {
    TableKeys();
    TableRecords();
    var k := Default[name];
    if name == WaterKey {
      assert k == Water;
    } else if name == AluminumKey {
      assert k == Aluminum;
    } else if name == CopperKey {
      assert k == Copper;
    } else {
      assert name == IronKey;
      assert k == Iron;
    }
    RecordHeatsPositive(k);
  }

  lemma RecordHeatsPositive(k: Constants)
    requires k in {Water, Aluminum, Copper, Iron}
    ensures PositiveHeats(k)
  {
    forall f | f in k && !IsTemperature(f)
      ensures k[f] > 0.0
    {
      if k == Water {
        assert f in {CSolid, CLiquid, CGas, Lf, Lv};
      } else {
        assert f in {CSolid, CLiquid, Lf};
      }
    }
  }

  /** The table the calculator uses: the one it is given, unless that is
      missing or empty, in which case the default table. */
  function EffectiveTable(custom: Option<Table>): (t: Table)
    ensures t != map[]
    ensures custom.Some? && custom.value != map[] ==> t == custom.value
    ensures custom.None? || custom.value == map[] ==> t == Default
  {
    if custom.Some? && custom.value != map[] then custom.value
    else assert WaterKey in Default; Default
  }

}
