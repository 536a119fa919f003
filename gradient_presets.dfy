/** The fixed table of sixteen card gradients (Frontend/src/styles/gradientPresets.ts). */
module GradientPresets {
  import opened Common

  /** A preset: `id` and `name` are required; the Tailwind class `tw` and the CSS
      expression `css` are optional, so a picker has to cope with either missing. */
  datatype Gradient = Gradient(id: string, name: string, tw: Option<string>, css: Option<string>)

  const TwPrefix: string := "bg-gradient-to-br"
  const CssPrefix: string := "linear-gradient(135deg,"

  /** No two presets share an id. */
  predicate DistinctIds(table: seq<Gradient>) {
    forall i, j :: 0 <= i < j < |table| ==> table[i].id != table[j].id
  }

  /** Both renderings are present and have the diagonal (135 degree) shape. */
  predicate FullyRendered(g: Gradient) {
    && g.tw.Some? && TwPrefix <= g.tw.value
    && g.css.Some? && CssPrefix <= g.css.value
  }

  /** An entry as the table writes them: both renderings given, the class as
      `bg-gradient-to-br <colours>` and the CSS as `linear-gradient(135deg,<from>,<to>)`. */
  function Preset(id: string, name: string, colours: string, from: string, to: string): (g: Gradient)
    ensures FullyRendered(g)
  {
    Gradient(id, name, Some(TwPrefix + " " + colours), Some(CssPrefix + from + "," + to + ")"))
  }

  const IndigoPurple: Gradient :=
    Preset("indigo-purple", "Indigo \U{2192} Purple", "from-indigo-500 to-purple-500", "#6366F1", "#A855F7")
  const VioletFuchsia: Gradient :=
    Preset("violet-fuchsia", "Violet \U{2192} Fuchsia", "from-violet-500 to-fuchsia-500", "#7C3AED", "#D946EF")
  const BlueCyan: Gradient :=
    Preset("blue-cyan", "Blue \U{2192} Cyan", "from-blue-500 to-cyan-500", "#3B82F6", "#06B6D4")
  const CyanTeal: Gradient :=
    Preset("cyan-teal", "Cyan \U{2192} Teal", "from-cyan-500 to-teal-500", "#06B6D4", "#14B8A6")
  const TealEmerald: Gradient :=
    Preset("teal-emerald", "Teal \U{2192} Emerald", "from-teal-500 to-emerald-500", "#14B8A6", "#10B981")
  const GreenLime: Gradient :=
    Preset("green-lime", "Green \U{2192} Lime", "from-green-500 to-lime-500", "#22C55E", "#84CC16")
  const AmberOrange: Gradient :=
    Preset("amber-orange", "Amber \U{2192} Orange", "from-amber-500 to-orange-500", "#F59E0B", "#F97316")
  const OrangeRed: Gradient :=
    Preset("orange-red", "Orange \U{2192} Red", "from-orange-500 to-red-500", "#F97316", "#EF4444")
  const RosePink: Gradient :=
    Preset("rose-pink", "Rose \U{2192} Pink", "from-rose-500 to-pink-500", "#F43F5E", "#EC4899")
  const PinkFuchsia: Gradient :=
    Preset("pink-fuchsia", "Pink \U{2192} Fuchsia", "from-pink-500 to-fuchsia-500", "#EC4899", "#D946EF")
  const PurpleRose: Gradient :=
    Preset("purple-rose", "Purple \U{2192} Rose", "from-purple-500 to-rose-500", "#A855F7", "#F43F5E")
  const SkyBlue: Gradient :=
    Preset("sky-blue", "Sky \U{2192} Blue", "from-sky-500 to-blue-500", "#0EA5E9", "#3B82F6")
  const SlateIndigo: Gradient :=
    Preset("slate-indigo", "Slate \U{2192} Indigo", "from-slate-600 to-indigo-500", "#475569", "#6366F1")
  const ZincSlate: Gradient :=
    Preset("zinc-slate", "Zinc \U{2192} Slate", "from-zinc-600 to-slate-600", "#52525B", "#475569")
  const EmeraldCyan: Gradient :=
    Preset("emerald-cyan", "Emerald \U{2192} Cyan", "from-emerald-500 to-cyan-500", "#10B981", "#06B6D4")
  const IndigoSky: Gradient :=
    Preset("indigo-sky", "Indigo \U{2192} Sky", "from-indigo-500 to-sky-500", "#6366F1", "#0EA5E9")

  /** GRADIENTS, in table order; the picker's choice depends on this order. */
  const Gradients: seq<Gradient> :=
    [ IndigoPurple, VioletFuchsia, BlueCyan, CyanTeal,
      TealEmerald, GreenLime, AmberOrange, OrangeRed,
      RosePink, PinkFuchsia, PurpleRose, SkyBlue,
      SlateIndigo, ZincSlate, EmeraldCyan, IndigoSky ]

  /** The table holds sixteen presets, so the picker reduces its hash modulo 16. */
  lemma GradientsCount()
    ensures |Gradients| == 16
  {
  }

  /** Every preset defines both renderings, each with its diagonal prefix. */
  lemma GradientsFullyRendered()
    ensures forall i :: 0 <= i < |Gradients| ==> FullyRendered(Gradients[i])
  {
    forall i | 0 <= i < |Gradients|
      ensures FullyRendered(Gradients[i])
    {
      assert Gradients[i] in Gradients;
    }
  }

  /** First character and length of an id; the table's ids already differ in this pair. */
  function IdSignature(g: Gradient): int
  {
    if g.id == [] then 0 else (g.id[0] as int) * 100 + |g.id|
  }

  /** The signature of each preset, read off its id. */
  lemma PresetSignatures()
    ensures IdSignature(IndigoPurple) == 10513 && IdSignature(VioletFuchsia) == 11814
    ensures IdSignature(BlueCyan) == 9809 && IdSignature(CyanTeal) == 9909
    ensures IdSignature(TealEmerald) == 11612 && IdSignature(GreenLime) == 10310
    ensures IdSignature(AmberOrange) == 9712 && IdSignature(OrangeRed) == 11110
    ensures IdSignature(RosePink) == 11409 && IdSignature(PinkFuchsia) == 11212
    ensures IdSignature(PurpleRose) == 11211 && IdSignature(SkyBlue) == 11508
    ensures IdSignature(SlateIndigo) == 11512 && IdSignature(ZincSlate) == 12210
    ensures IdSignature(EmeraldCyan) == 10112 && IdSignature(IndigoSky) == 10510
  {
  }

  /** The position in the table of the preset with signature `sig`. */
  function PositionOf(sig: int): int
  {
    if sig == 10513 then 0
    else if sig == 11814 then 1
    else if sig == 9809 then 2
    else if sig == 9909 then 3
    else if sig == 11612 then 4
    else if sig == 10310 then 5
    else if sig == 9712 then 6
    else if sig == 11110 then 7
    else if sig == 11409 then 8
    else if sig == 11212 then 9
    else if sig == 11211 then 10
    else if sig == 11508 then 11
    else if sig == 11512 then 12
    else if sig == 12210 then 13
    else if sig == 10112 then 14
    else if sig == 10510 then 15
    else -1
  }

  /** The ids are pairwise distinct, so an id names one preset. */
  lemma GradientsDistinctIds()
    ensures DistinctIds(Gradients)
  {
    PresetSignatures();
    forall i | 0 <= i < |Gradients|
      ensures PositionOf(IdSignature(Gradients[i])) == i
    {
      assert Gradients[i] in Gradients;
    }
  }
}
