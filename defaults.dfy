/** Defaults: the stain output types, the configuration object built from a
    dictionary of values, and the shipped default values. */
module Defaults {
  import opened Wrappers
  import opened Errors
  import opened SlideTiler

  /** StainTypes: the stain images a tile can be restored into. */
  datatype StainType = Norm | He | Eo {
    /** The member's name (`StainTypes.norm.name`). */
    function Name(): string {
      match this
      case Norm => "norm"
      case He => "he"
      case Eo => "eo"
    }

    /** The member's value (`StainTypes.norm.value`). */
    function Value(): string {
      match this
      case Norm => "norm"
      case He => "he"
      case Eo => "eo"
    }
  }

  /** Every member's value is its name. */
  lemma StainValueIsName(s: StainType)
    ensures s.Value() == s.Name()
  {
  }

  /** `StainTypes(value)`: the member with this value, if any. */
  function StainTypeOfValue(value: string): (r: Option<StainType>)
    ensures r.Some? ==> r.value.Value() == value
    ensures r.None? ==> forall s: StainType :: s.Value() != value
  {
    if value == "norm" then Some(Norm)
    else if value == "he" then Some(He)
    else if value == "eo" then Some(Eo)
    else None
  }

  /** Looking a member up by its value gives the member back, so distinct
      members have distinct names. */
  lemma StainTypeRoundTrip(s: StainType)
    ensures StainTypeOfValue(s.Value()) == Some(s)
  {
  }

  /** stain_types: the names of the configured output types, in order. */
  function StainTypeNames(outputType: seq<StainType>): (names: seq<string>)
    ensures |names| == |outputType|
    ensures forall i :: 0 <= i < |outputType| ==> StainTypeOfValue(names[i]) == Some(outputType[i])
  {
    if outputType == [] then []
    else
      StainTypeRoundTrip(outputType[0]);
      [outputType[0].Name()] + StainTypeNames(outputType[1..])
  }

  /** [norm, he, eo] gives the names ['norm', 'he', 'eo']. */
  lemma StainTypeNamesOfAllTypes()
    ensures StainTypeNames([Norm, He, Eo]) == ["norm", "he", "eo"]
  {
  }

  // ---------------------------------------------------------------------
  // Configuration values

  /** A value of the defaults dictionary. Arrays and numeric types the model
      does not interpret are Opaque. */
  datatype Value =
    | Bool(b: bool)
    | Int(i: int)
    | Real(r: real)
    | Text(s: string)
    | IntTable(entries: seq<(int, int)>)   // a dict of int to int, in insertion order
    | Stains(stains: seq<StainType>)
    | Texts(texts: seq<string>)
    | Opaque(description: string)

  /** `Defaults.__slots__`, in declaration order. */
  const Slots: seq<string> := [
    "show_results", "ram_megapixel", "output_type", "dtype", "numba_dtype",
    "normalising_c", "alpha", "beta", "temporary_folder_name", "remove_temporary_files",
    "jpeg_quality", "vips_tiff_compression", "thumbnail", "thumbnail_max_side",
    "vips_stitcher", "OpenSlide_formats", "first_tile", "libvips_url", "libvips_md5",
    "he_ref", "max_s_ref"]

  /** The position of the first slot at or after `from` that the dictionary
      lacks; None when it has all of them. */
  function MissingSlotFrom(d: map<string, Value>, from: nat): (r: Option<nat>)
    requires from <= |Slots|
    ensures r.Some? ==> from <= r.value < |Slots| && Slots[r.value] !in d &&
                        forall j :: from <= j < r.value ==> Slots[j] in d
    ensures r.None? ==> forall j :: from <= j < |Slots| ==> Slots[j] in d
    decreases |Slots| - from
  {
    if from == |Slots| then None
    else if Slots[from] !in d then Some(from)
    else MissingSlotFrom(d, from + 1)
  }

  /** The first slot the dictionary lacks, in slot order. */
  function MissingSlot(d: map<string, Value>): Option<nat> {
    MissingSlotFrom(d, 0)
  }

  /** The attributes the constructor has set once it has assigned the first
      k slots. */
  function SlotValues(d: map<string, Value>, k: nat): map<string, Value>
    requires k <= |Slots|
    requires forall j :: 0 <= j < k ==> Slots[j] in d
  {
    map s | s in Slots[..k] :: d[s]
  }

  lemma SlotValuesStep(d: map<string, Value>, k: nat)
    requires k < |Slots|
    requires forall j :: 0 <= j <= k ==> Slots[j] in d
    ensures SlotValues(d, k + 1) == SlotValues(d, k)[Slots[k] := d[Slots[k]]]
  {
    assert Slots[..k + 1] == Slots[..k] + [Slots[k]];
  }

  lemma UnionThenUpdate<K, V>(a: map<K, V>, b: map<K, V>, k: K, v: V)
    ensures (a + b)[k := v] == a + b[k := v]
  {
  }

  /** Defaults: an object with one attribute per slot. */
  class Defaults {
    var attrs: map<string, Value>

    /** An object before `__init__` has run: no attribute set. */
    constructor Empty()
      ensures attrs == map[]
    {
      attrs := map[];
    }

    /** `__init__`: assign every slot from the dictionary, in slot order;
        the first slot the dictionary lacks raises KeyError, after the
        slots before it have been set. Keys that are not slots are ignored. */
    method Init(d: map<string, Value>) returns (r: Result<(), Error>)
      modifies this
      ensures r.Err? <==> MissingSlot(d).Some?
      ensures r.Err? ==> r.error == MissingSlotKey(Slots[MissingSlot(d).value]) &&
                         attrs == old(attrs) + SlotValues(d, MissingSlot(d).value)
      ensures r.Ok? ==> attrs == old(attrs) + SlotValues(d, |Slots|)
    {
      var i := 0;
      while i < |Slots|
        invariant 0 <= i <= |Slots|
        invariant MissingSlotFrom(d, 0) == MissingSlotFrom(d, i)
        invariant forall j :: 0 <= j < i ==> Slots[j] in d
        invariant attrs == old(attrs) + SlotValues(d, i)
      {
        var slot := Slots[i];
        if slot !in d {
          assert MissingSlotFrom(d, i) == Some(i);
          return Err(MissingSlotKey(slot));
        }
        SlotValuesStep(d, i);
        UnionThenUpdate(old(attrs), SlotValues(d, i), slot, d[slot]);
        attrs := attrs[slot := d[slot]];
        i := i + 1;
      }
      assert MissingSlotFrom(d, i) == None;
      return Ok(());
    }

    /** stain_types on the object's output_type attribute. */
    function StainTypes(): (names: seq<string>)
      reads this
      requires "output_type" in attrs && attrs["output_type"].Stains?
      ensures |names| == |attrs["output_type"].stains|
    {
      StainTypeNames(attrs["output_type"].stains)
    }
  }

  /** Two dictionaries that agree on the slots build the same object: keys
      outside the slots play no part. */
  lemma ExtraKeysAreIgnored(d1: map<string, Value>, d2: map<string, Value>)
    requires forall s :: s in Slots ==> (s in d1 <==> s in d2)
    requires forall s :: s in Slots && s in d1 ==> d1[s] == d2[s]
    ensures MissingSlot(d1) == MissingSlot(d2)
    ensures MissingSlot(d1).None? ==> SlotValues(d1, |Slots|) == SlotValues(d2, |Slots|)
  {
    MissingSlotsAgree(d1, d2, 0);
  }

  lemma {:induction false} MissingSlotsAgree(d1: map<string, Value>, d2: map<string, Value>, from: nat)
    requires from <= |Slots|
    requires forall s :: s in Slots ==> (s in d1 <==> s in d2)
    ensures MissingSlotFrom(d1, from) == MissingSlotFrom(d2, from)
    decreases |Slots| - from
  {
    if from < |Slots| {
      MissingSlotsAgree(d1, d2, from + 1);
    }
  }

  /** After a successful construction every slot holds the dictionary's
      value for it, and no other attribute is set. */
  lemma SlotsHoldTheirValues(d: map<string, Value>)
    requires MissingSlot(d).None?
    ensures forall s :: s in Slots ==> s in SlotValues(d, |Slots|) && SlotValues(d, |Slots|)[s] == d[s]
    ensures forall s :: s in SlotValues(d, |Slots|) ==> s in Slots
  {
    assert Slots[..|Slots|] == Slots;
  }

  // ---------------------------------------------------------------------
  // The shipped defaults

  /** DEFAULTS_VALS. */
  function DefaultsValues(): map<string, Value> {
    map[
      "show_results" := Bool(false),
      "ram_megapixel" := IntTable([(12000, 12000), (12001, 24500)]),
      "output_type" := Stains([Norm]),
      "dtype" := Opaque("float32"),
      "numba_dtype" := Opaque("numba float32"),
      "normalising_c" := Int(255),
      "alpha" := Real(0.0001),
      "beta" := Real(0.0015),
      "temporary_folder_name" := Text("dogsled_temp"),
      "remove_temporary_files" := Bool(true),
      "jpeg_quality" := Int(95),
      "vips_tiff_compression" := Text("lzw"),
      "thumbnail" := Bool(true),
      "thumbnail_max_side" := Int(6000),
      "vips_stitcher" := Bool(false),
      "OpenSlide_formats" := Texts([".svs", ".tif", ".tiff", ".scn", ".vms", ".vmu",
                                    ".ndpi", ".mrxs", ".svslide", ".bif"]),
      "first_tile" := Text("middle"),
      "libvips_url" := Text("https://github.com/libvips/build-win64-mxe/releases/download/v8.12.0/vips-dev-w64-web-8.12.0-static.zip"),
      "libvips_md5" := Text("9a5dc27f6e9aae423ea620447dc67f1e"),
      "he_ref" := Opaque("he_ref 3x2 array"),
      "max_s_ref" := Opaque("max_s_ref 2-vector")
    ]
  }

  /** DEFAULTS = Defaults(DEFAULTS_VALS) succeeds: every slot has a value. */
  lemma DefaultsValuesFillEverySlot()
    ensures MissingSlot(DefaultsValues()).None?
  {
    var d := DefaultsValues();
    forall j | 0 <= j < |Slots|
      ensures Slots[j] in d
    {
    }
  }

  /** The settings the modelled operations read from DEFAULTS, as a typed
      record. */
  datatype Config = Config(
    ramMegapixel: seq<(int, int)>,
    outputType: seq<StainType>,
    temporaryFolderName: string,
    removeTemporaryFiles: Value,
    thumbnailMaxSide: nat,
    vipsStitcher: bool,
    firstTile: FirstTile)

  /** The shipped configuration. */
  const DefaultConfig: Config := Config(
    [(12000, 12000), (12001, 24500)],
    [Norm],
    "dogsled_temp",
    Bool(true),
    6000,
    false,
    Middle)

  /** The typed record carries the values of DEFAULTS_VALS: the table and
      the output types. */
  lemma DefaultConfigMatchesValues()
    ensures var d := DefaultsValues();
      d["ram_megapixel"] == IntTable(DefaultConfig.ramMegapixel) &&
      d["output_type"] == Stains(DefaultConfig.outputType)
  {
  }

  /** The typed record carries the values of DEFAULTS_VALS: the temporary
      folder settings. */
  lemma DefaultConfigMatchesTemporaryValues()
    ensures var d := DefaultsValues();
      d["temporary_folder_name"] == Text(DefaultConfig.temporaryFolderName) &&
      d["remove_temporary_files"] == DefaultConfig.removeTemporaryFiles
  {
  }

  /** The typed record carries the values of DEFAULTS_VALS: thumbnail,
      stitcher and first tile. */
  lemma DefaultConfigMatchesStitchValues()
    ensures var d := DefaultsValues();
      d["thumbnail_max_side"] == Int(DefaultConfig.thumbnailMaxSide) &&
      d["vips_stitcher"] == Bool(DefaultConfig.vipsStitcher) &&
      d["first_tile"] == Text("middle") && DefaultConfig.firstTile == Middle
  {
  }
}
