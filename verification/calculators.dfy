/** The pure parts of the calculator drivers in NEB/calculators.py: choosing a
    driver by name, rendering the geometry lines, splicing them into the
    QChem, Gaussian 16 and BAGEL input templates, and unpacking the energy and
    gradient the programs write back.

    Creating directories, copying templates, reading and writing files and
    running the external programs are not modelled: a template is the list of
    its lines (or, for BAGEL, its list of sections) and an output file is the
    list of its lines. The element-symbol table, the bohr-to-ångström factor,
    the `%+12.10f` rendering of a number and Python's `float()` come from
    outside this file and are parameters. */
module Calculators {
  import opened Base
  import opened Vectors
  import opened Text

  /** The four electronic-structure drivers. */
  datatype CalculatorKind = Gaussian09 | Gaussian16 | QChem | Bagel

  datatype CalcError =
    | UnknownCalculator(name: string)    // ValueError in get_calculator
    | UnknownElement(number: int)        // IndexError on atom_names[Z-1]
    | NoMoleculeBlock                    // `start` stays None in run_qchem
    | PlaceholderMissing                 // lines.remove("@geom\n") in run_gaussian_16
    | NoMoleculeSection                  // RuntimeError in run_bagel
    | BadNumber(text: string)            // float() rejects the text
    | MalformedLine(line: nat)           // a FORCE.out gradient line without three numbers
    | EnergyNotFound                     // the grep for 'Total energy' printed nothing

  /** What a driver hands back: the total energy and its Cartesian gradient. */
  datatype Evaluation = Evaluation(energy: real, gradient: Vector)

  /** The name `get_calculator` accepts for each driver. */
  function CalculatorName(k: CalculatorKind): string {
    match k
    case Gaussian09 => "g09"
    case Gaussian16 => "g16"
    case QChem => "qchem"
    case Bagel => "bagel"
  }

  /** `get_calculator(name)`: exactly the four names are accepted; each picks
      the driver that carries that name, and anything else is a ValueError. */
  function GetCalculator(name: string): (r: Result<CalculatorKind, CalcError>)
    ensures r.Ok? <==> name in {"g09", "g16", "qchem", "bagel"}
    ensures r.Ok? ==> CalculatorName(r.value) == name
    ensures r.Err? ==> r.error == UnknownCalculator(name)
  {
    if name == "g09" then Ok(Gaussian09)
    else if name == "g16" then Ok(Gaussian16)
    else if name == "qchem" then Ok(QChem)
    else if name == "bagel" then Ok(Bagel)
    else Err(UnknownCalculator(name))
  }

  /** Every driver is reachable: looking up its name returns it. */
  lemma GetCalculatorRoundTrip(k: CalculatorKind)
    ensures GetCalculator(CalculatorName(k)) == Ok(k)
  {
  }

  datatype Point = Point(x: real, y: real, z: real)

  /** One entry of an atom list: atomic number and Cartesian position in bohr. */
  datatype Atom = Atom(number: int, pos: Point)

  /** The parts of the atomic-data module the drivers use: element names
      indexed by atomic number minus one, and the bohr-to-ångström factor. */
  datatype AtomicData = AtomicData(names: seq<string>, bohrToAngs: real)

  /** `atom_names[Z-1]`, with Python's negative indexing. */
  function ElementName(data: AtomicData, number: int): (r: Result<string, CalcError>)
    ensures r.Ok? <==> -|data.names| <= number - 1 < |data.names|
    ensures r.Err? ==> r.error == UnknownElement(number)
  {
    match PyIndex(data.names, number - 1)
    case Some(name) => Ok(name)
    case None => Err(UnknownElement(number))
  }

  /** `"%2s    %+12.10f   %+12.10f   %+12.10f \n"` for one atom, with the
      coordinates converted to ångström; `fmt` renders one number. */
  function GeometryLine(symbol: string, p: Point, c: real, fmt: real -> string): string {
    PadLeft(Upper(symbol), 2) + "    " + fmt(p.x * c) + "   " + fmt(p.y * c) + "   " + fmt(p.z * c) + " \n"
  }

  /** The geometry block shared by the QChem and Gaussian 16 drivers: one
      line per atom, in atom-list order, or the IndexError of the first atom
      whose number has no element name. */
  function GeometryLines(data: AtomicData, fmt: real -> string, atoms: seq<Atom>): (r: Result<seq<string>, CalcError>)
    ensures r.Ok? <==> forall k :: 0 <= k < |atoms| ==> ElementName(data, atoms[k].number).Ok?
    ensures r.Ok? ==> |r.value| == |atoms|
    ensures r.Ok? ==> forall k :: 0 <= k < |atoms| ==>
      r.value[k] == GeometryLine(ElementName(data, atoms[k].number).value, atoms[k].pos, data.bohrToAngs, fmt)
    ensures r.Err? ==> exists k :: 0 <= k < |atoms| && ElementName(data, atoms[k].number) == Err(r.error)
    decreases |atoms|
  {
    if |atoms| == 0 then Ok([])
    else
      var symbol :- ElementName(data, atoms[0].number);
      var rest :- GeometryLines(data, fmt, atoms[1..]);
      assert forall k :: 1 <= k < |atoms| ==> atoms[k] == atoms[1..][k - 1];
      Ok([GeometryLine(symbol, atoms[0].pos, data.bohrToAngs, fmt)] + rest)
  }

  // ---------------------------------------------------------------------
  // QChem: replace the body of the `$molecule ... $end` block.

  predicate IsMoleculeLine(l: string) {
    Contains(l, "$molecule")
  }

  /** A line that closes the block: it mentions `$end` and is not itself a
      `$molecule` line (that test comes first in the scan). */
  predicate IsEndLine(l: string) {
    Contains(l, "$end") && !IsMoleculeLine(l)
  }

  datatype BlockBounds = BlockBounds(start: Option<nat>, end: Option<nat>)

  /** The scan of run_qchem: every `$molecule` line moves `start`; the first
      `$end` line seen after some `$molecule` line sets `end` and stops. */
  function ScanBlock(lines: seq<string>, i: nat, start: Option<nat>): BlockBounds
    requires i <= |lines|
    decreases |lines| - i
  {
    if i == |lines| then BlockBounds(start, None)
    else if IsMoleculeLine(lines[i]) then ScanBlock(lines, i + 1, Some(i))
    else if IsEndLine(lines[i]) && start.Some? then BlockBounds(start, Some(i))
    else ScanBlock(lines, i + 1, start)
  }

  /** No `$end` line before index `i` is preceded by a `$molecule` line. */
  ghost predicate NoClosedBlockBefore(lines: seq<string>, i: nat)
    requires i <= |lines|
  {
    forall k :: 0 <= k < i && IsEndLine(lines[k]) ==> forall j :: 0 <= j < k ==> !IsMoleculeLine(lines[j])
  }

  /** `start` is the last `$molecule` line before index `i` (None if there
      is none). */
  ghost predicate LastMoleculeBefore(lines: seq<string>, i: nat, start: Option<nat>)
    requires i <= |lines|
  {
    match start
    case None => forall k :: 0 <= k < i ==> !IsMoleculeLine(lines[k])
    case Some(s) => s < i && IsMoleculeLine(lines[s]) && forall k :: s < k < i ==> !IsMoleculeLine(lines[k])
  }

  /** Where the block is, said without the scan: `end` is the first `$end`
      line that has a `$molecule` line before it, and `start` is the last
      `$molecule` line before `end` (before the end of the file if there is no
      such `$end`). */
  ghost predicate IsBlock(lines: seq<string>, b: BlockBounds) {
    match b.end
    case Some(e) =>
      && e < |lines|
      && IsEndLine(lines[e])
      && NoClosedBlockBefore(lines, e)
      && b.start.Some?
      && LastMoleculeBefore(lines, e, b.start)
    case None =>
      && NoClosedBlockBefore(lines, |lines|)
      && LastMoleculeBefore(lines, |lines|, b.start)
  }

  lemma {:induction false} ScanBlockFindsBlockFrom(lines: seq<string>, i: nat, start: Option<nat>)
    requires i <= |lines|
    requires LastMoleculeBefore(lines, i, start)
    requires NoClosedBlockBefore(lines, i)
    ensures IsBlock(lines, ScanBlock(lines, i, start))
    decreases |lines| - i
  {
    if i == |lines| {
    } else if IsMoleculeLine(lines[i]) {
      ScanBlockFindsBlockFrom(lines, i + 1, Some(i));
    } else if IsEndLine(lines[i]) && start.Some? {
    } else {
      assert NoClosedBlockBefore(lines, i + 1) by {
        if IsEndLine(lines[i]) {
          assert start.None?;
        }
      }
      ScanBlockFindsBlockFrom(lines, i + 1, start);
    }
  }

  /** The scan of run_qchem finds exactly the block described by `IsBlock`. */
  lemma ScanBlockFindsBlock(lines: seq<string>)
    ensures IsBlock(lines, ScanBlock(lines, 0, None))
  {
    ScanBlockFindsBlockFrom(lines, 0, None);
  }

  /** The QChem template with its geometry replaced:
      `lines[0:start+2] + geom_lines + lines[end:]`. The `$molecule` line and
      the charge/multiplicity line after it are kept; without a `$end` the
      whole template follows the geometry (`lines[None:]`); without a
      `$molecule` line `start + 2` is a TypeError. */
  function QChemSplice(lines: seq<string>, geom: seq<string>): (r: Result<seq<string>, CalcError>)
    ensures r.Err? <==> forall k :: 0 <= k < |lines| ==> !IsMoleculeLine(lines[k])
    ensures r.Err? ==> r.error == NoMoleculeBlock
    ensures r.Ok? ==> forall blk :: IsBlock(lines, blk) ==> (
      && blk.start.Some?
      && var keep := if blk.start.value + 2 <= |lines| then blk.start.value + 2 else |lines|;
         r.value == lines[..keep] + geom + (if blk.end.None? then lines else lines[blk.end.value..]))
  {
    ScanBlockFindsBlock(lines);
    var b := ScanBlock(lines, 0, None);
    OnlyScannedBlock(lines);
    match b.start
    case None => Err(NoMoleculeBlock)
    case Some(s) =>
      var keep := if s + 2 <= |lines| then s + 2 else |lines|;
      var tail := match b.end { case None => lines case Some(e) => lines[e..] };
      Ok(lines[..keep] + geom + tail)
  }

  /** The QChem block: geometry lines for a closed `$molecule ... $end` block
      sit between the kept header and the `$end` line, which is where the
      rest of the template resumes. */
  lemma QChemSpliceClosedBlock(lines: seq<string>, geom: seq<string>, s: nat, e: nat)
    requires IsBlock(lines, BlockBounds(Some(s), Some(e)))
    ensures QChemSplice(lines, geom) == Ok(lines[..s + 2] + geom + lines[e..])
  {
    ScanBlockFindsBlock(lines);
    var b := ScanBlock(lines, 0, None);
    IsBlockUnique(lines, b, BlockBounds(Some(s), Some(e)));
  }

  /** Without a `$end` line the whole template follows the geometry, so its
      first lines appear twice. */
  lemma QChemSpliceOpenBlock(lines: seq<string>, geom: seq<string>, s: nat)
    requires IsBlock(lines, BlockBounds(Some(s), None))
    ensures s + 2 <= |lines| ==> QChemSplice(lines, geom) == Ok(lines[..s + 2] + geom + lines)
    ensures s + 2 > |lines| ==> QChemSplice(lines, geom) == Ok(lines + geom + lines)
  {
    ScanBlockFindsBlock(lines);
    var b := ScanBlock(lines, 0, None);
    IsBlockUnique(lines, b, BlockBounds(Some(s), None));
    assert lines[..|lines|] == lines;
  }

  /** The scan's block is the only one `IsBlock` admits. */
  lemma OnlyScannedBlock(lines: seq<string>)
    ensures forall blk :: IsBlock(lines, blk) ==> blk == ScanBlock(lines, 0, None)
  {
    ScanBlockFindsBlock(lines);
    forall blk | IsBlock(lines, blk)
      ensures blk == ScanBlock(lines, 0, None)
    {
      IsBlockUnique(lines, blk, ScanBlock(lines, 0, None));
    }
  }

  /** `IsBlock` pins down one answer. */
  lemma IsBlockUnique(lines: seq<string>, b1: BlockBounds, b2: BlockBounds)
    requires IsBlock(lines, b1) && IsBlock(lines, b2)
    ensures b1 == b2
  {
    if b1.end.Some? && b2.end.Some? {
      assert b1.end == b2.end;
      LastMoleculeUnique(lines, b1.end.value, b1.start, b2.start);
    } else if b1.end.None? && b2.end.None? {
      LastMoleculeUnique(lines, |lines|, b1.start, b2.start);
    }
  }

  lemma LastMoleculeUnique(lines: seq<string>, i: nat, a: Option<nat>, b: Option<nat>)
    requires i <= |lines|
    requires LastMoleculeBefore(lines, i, a) && LastMoleculeBefore(lines, i, b)
    ensures a == b
  {
  }

  /** run_qchem's input: the geometry lines are rendered first, then spliced
      into the template. */
  function QChemInput(data: AtomicData, fmt: real -> string, template: seq<string>, atoms: seq<Atom>): (r: Result<seq<string>, CalcError>)
    ensures r.Ok? ==> GeometryLines(data, fmt, atoms).Ok? && QChemSplice(template, GeometryLines(data, fmt, atoms).value) == r
    ensures r.Ok? <==> GeometryLines(data, fmt, atoms).Ok? && exists k :: 0 <= k < |template| && IsMoleculeLine(template[k])
    ensures GeometryLines(data, fmt, atoms).Err? ==> r == Err(GeometryLines(data, fmt, atoms).error)
    ensures GeometryLines(data, fmt, atoms).Ok? && r.Err? ==> r == Err(NoMoleculeBlock)
  {
    var geom :- GeometryLines(data, fmt, atoms);
    QChemSplice(template, geom)
  }

  /** The QChem energy and gradient: the energy is the text grep and awk
      printed, stripped (an empty string fails the assertion), and the
      gradient is -1 times the forces from the checkpoint file. */
  function QChemEvaluation(energyText: string, forces: Vector, parse: string -> Option<real>): (r: Result<Evaluation, CalcError>)
    ensures r.Err? ==> r.error == EnergyNotFound || r.error == BadNumber(Strip(energyText))
    ensures r == Err(EnergyNotFound) <==> AllSpace(energyText)
    ensures r.Ok? <==> !AllSpace(energyText) && parse(Strip(energyText)).Some?
    ensures r.Ok? ==> r.value.energy == parse(Strip(energyText)).value
    ensures r.Ok? ==> Neg(r.value.gradient) == forces
  {
    var en := Strip(energyText);
    if en == "" then Err(EnergyNotFound)
    else
      match parse(en)
      case None => Err(BadNumber(en))
      case Some(e) =>
        var grad := Scale(-1.0, forces);
        assert Neg(grad) == forces;
        Ok(Evaluation(e, grad))
  }

  // ---------------------------------------------------------------------
  // Gaussian 16: expand the `@geom` placeholder line.

  const GeomPlaceholder: string := "@geom\n"

  /** `lines.index(x)`: the first position holding `x`. */
  function FirstIndex(lines: seq<string>, x: string): (k: nat)
    requires x in lines
    ensures k < |lines| && lines[k] == x
    ensures forall j :: 0 <= j < k ==> lines[j] != x
  {
    if lines[0] == x then 0 else 1 + FirstIndex(lines[1..], x)
  }

  /** Python's `list.insert(k, x)` for `k >= 0`. */
  function Insert(s: seq<string>, k: nat, x: string): (r: seq<string>)
    ensures |r| == |s| + 1
  {
    var p := if k <= |s| then k else |s|;
    s[..p] + [x] + s[p..]
  }

  /** The insertion loop of run_gaussian_16: item `idx` goes to position
      `idx + index`. */
  function InsertAll(s: seq<string>, index: nat, items: seq<string>): seq<string>
    decreases |items|
  {
    if |items| == 0 then s else InsertAll(Insert(s, index, items[0]), index + 1, items[1..])
  }

  /** Inserting the items one after another at consecutive positions places
      them as one block. */
  lemma {:induction false} InsertAllIsSplice(s: seq<string>, index: nat, items: seq<string>)
    requires index <= |s|
    ensures InsertAll(s, index, items) == s[..index] + items + s[index..]
    decreases |items|
  {
    if |items| > 0 {
      var s' := Insert(s, index, items[0]);
      assert s' == s[..index] + [items[0]] + s[index..];
      InsertAllIsSplice(s', index + 1, items[1..]);
      assert s'[..index + 1] == s[..index] + [items[0]];
      assert s'[index + 1..] == s[index..];
      assert [items[0]] + items[1..] == items;
    }
  }

  /** The template with its `@geom` line replaced by the geometry lines.
      `lines.index` falls back to position 9 when the placeholder is missing,
      but the following `lines.remove` then raises, so that case fails. */
  function ExpandPlaceholder(lines: seq<string>, geom: seq<string>): (r: Result<seq<string>, CalcError>)
    ensures r.Err? <==> GeomPlaceholder !in lines
    ensures r.Err? ==> r.error == PlaceholderMissing
    ensures r.Ok? ==> var p := FirstIndex(lines, GeomPlaceholder);
      r.value == lines[..p] + geom + lines[p + 1..]
  {
    var index := if GeomPlaceholder in lines then FirstIndex(lines, GeomPlaceholder) else 9;
    if GeomPlaceholder !in lines then Err(PlaceholderMissing)
    else
      var removed := lines[..index] + lines[index + 1..];
      InsertAllIsSplice(removed, index, geom);
      assert removed[..index] == lines[..index];
      assert removed[index..] == lines[index + 1..];
      Ok(InsertAll(removed, index, geom))
  }

  /** run_gaussian_16 as written: `neb.gjf` is opened for writing, which
      empties it, before it is opened for reading, so the lines read are
      always `[]` and the placeholder is never found, whatever the template. */
  function Gaussian16InputAsWritten(data: AtomicData, fmt: real -> string, template: seq<string>, atoms: seq<Atom>): (r: Result<seq<string>, CalcError>)
    ensures r == Err(PlaceholderMissing)
  {
    Gaussian16Input(data, fmt, [], atoms)
  }

  /** The Gaussian 16 input built from the template that was copied in:
      the placeholder line is checked first, then the geometry lines go in
      its place, every other line keeping its order. */
  function Gaussian16Input(data: AtomicData, fmt: real -> string, template: seq<string>, atoms: seq<Atom>): (r: Result<seq<string>, CalcError>)
    ensures GeomPlaceholder !in template ==> r == Err(PlaceholderMissing)
    ensures r.Ok? <==> GeomPlaceholder in template && GeometryLines(data, fmt, atoms).Ok?
    ensures r.Ok? ==> var p := FirstIndex(template, GeomPlaceholder);
      r.value == template[..p] + GeometryLines(data, fmt, atoms).value + template[p + 1..]
  {
    if GeomPlaceholder !in template then Err(PlaceholderMissing)
    else
      var geom :- GeometryLines(data, fmt, atoms);
      ExpandPlaceholder(template, geom)
  }

  // ---------------------------------------------------------------------
  // BAGEL: rewrite the molecule section of the JSON input, read FORCE.out.

  /** One geometry entry: `{"atom": symbol, "xyz": [x, y, z]}`. */
  datatype BagelAtom = BagelAtom(atom: string, xyz: seq<real>)

  /** One entry of the `"bagel"` list. `angstrom` and `geometry` are the two
      keys the driver writes; `others` stands for every other key, kept as is. */
  datatype Section = Section(title: string, angstrom: Option<bool>, geometry: Option<seq<BagelAtom>>, others: map<string, string>)

  predicate HasMoleculeSection(sections: seq<Section>) {
    exists k :: 0 <= k < |sections| && sections[k].title == "molecule"
  }

  /** The first section titled "molecule". */
  function FirstMoleculeSection(sections: seq<Section>): (k: nat)
    requires HasMoleculeSection(sections)
    ensures k < |sections| && sections[k].title == "molecule"
    ensures forall j :: 0 <= j < k ==> sections[j].title != "molecule"
  {
    if sections[0].title == "molecule" then 0
    else
      assert HasMoleculeSection(sections[1..]) by {
        var k :| 0 <= k < |sections| && sections[k].title == "molecule";
        assert sections[1..][k - 1] == sections[k];
      }
      1 + FirstMoleculeSection(sections[1..])
  }

  /** `list(pos)` with every coordinate multiplied by `scale`. */
  function Xyz(p: Point, scale: real): seq<real> {
    [p.x * scale, p.y * scale, p.z * scale]
  }

  /** The geometry entries, one per atom in atom-list order, each position
      multiplied by `scale`. */
  function BagelGeometry(data: AtomicData, atoms: seq<Atom>, scale: real): (r: Result<seq<BagelAtom>, CalcError>)
    ensures r.Ok? <==> forall k :: 0 <= k < |atoms| ==> ElementName(data, atoms[k].number).Ok?
    ensures r.Ok? ==> |r.value| == |atoms|
    ensures r.Ok? ==> forall k :: 0 <= k < |atoms| ==>
      && r.value[k].atom == Capitalize(ElementName(data, atoms[k].number).value)
      && r.value[k].xyz == Xyz(atoms[k].pos, scale)
    ensures r.Err? ==> exists k :: 0 <= k < |atoms| && ElementName(data, atoms[k].number) == Err(r.error)
    decreases |atoms|
  {
    if |atoms| == 0 then Ok([])
    else
      var name :- ElementName(data, atoms[0].number);
      var rest :- BagelGeometry(data, atoms[1..], scale);
      var out := [BagelAtom(Capitalize(name), Xyz(atoms[0].pos, scale))] + rest;
      assert forall k :: 1 <= k < |atoms| ==> atoms[k] == atoms[1..][k - 1] && out[k] == rest[k - 1];
      Ok(out)
  }

  /** The section list with the first molecule section rewritten: its
      `angstrom` flag set and its geometry replaced; every other section and
      every other key untouched. */
  function BagelSplice(sections: seq<Section>, geom: seq<BagelAtom>): (r: Result<seq<Section>, CalcError>)
    ensures r.Err? <==> !HasMoleculeSection(sections)
    ensures r.Err? ==> r.error == NoMoleculeSection
    ensures r.Ok? ==> var m := FirstMoleculeSection(sections);
      && |r.value| == |sections|
      && (forall k :: 0 <= k < |sections| && k != m ==> r.value[k] == sections[k])
      && r.value[m].title == "molecule"
      && r.value[m].others == sections[m].others
      && r.value[m].angstrom == Some(true)
      && r.value[m].geometry == Some(geom)
  {
    if !HasMoleculeSection(sections) then Err(NoMoleculeSection)
    else
      var m := FirstMoleculeSection(sections);
      Ok(sections[m := sections[m].(angstrom := Some(true), geometry := Some(geom))])
  }

  /** run_bagel as written: the positions are written unconverted, in bohr,
      while the section is marked `"angstrom": True`. The section is looked
      up before the geometry is built. */
  function BagelInputAsWritten(data: AtomicData, sections: seq<Section>, atoms: seq<Atom>): (r: Result<seq<Section>, CalcError>)
    ensures r.Ok? ==> BagelGeometry(data, atoms, 1.0).Ok? && r == BagelSplice(sections, BagelGeometry(data, atoms, 1.0).value)
    ensures r.Ok? <==> HasMoleculeSection(sections) && forall k :: 0 <= k < |atoms| ==> ElementName(data, atoms[k].number).Ok?
    ensures !HasMoleculeSection(sections) ==> r == Err(NoMoleculeSection)
    ensures HasMoleculeSection(sections) && r.Err? ==>
      exists k :: 0 <= k < |atoms| && ElementName(data, atoms[k].number) == Err(r.error)
  {
    if !HasMoleculeSection(sections) then Err(NoMoleculeSection)
    else
      var geom :- BagelGeometry(data, atoms, 1.0);
      BagelSplice(sections, geom)
  }

  /** run_bagel with the positions converted to the unit the section declares. */
  function BagelInput(data: AtomicData, sections: seq<Section>, atoms: seq<Atom>): (r: Result<seq<Section>, CalcError>)
    ensures r.Ok? ==> (BagelGeometry(data, atoms, data.bohrToAngs).Ok? &&
      r == BagelSplice(sections, BagelGeometry(data, atoms, data.bohrToAngs).value))
    ensures !HasMoleculeSection(sections) ==> r == Err(NoMoleculeSection)
    ensures r.Ok? <==> HasMoleculeSection(sections) && forall k :: 0 <= k < |atoms| ==> ElementName(data, atoms[k].number).Ok?
    ensures HasMoleculeSection(sections) && r.Err? ==>
      exists k :: 0 <= k < |atoms| && ElementName(data, atoms[k].number) == Err(r.error)
  {
    if !HasMoleculeSection(sections) then Err(NoMoleculeSection)
    else
      var geom :- BagelGeometry(data, atoms, data.bohrToAngs);
      BagelSplice(sections, geom)
  }

  /** A position as BAGEL reads it back, in bohr: ångström values are
      divided by the conversion factor, bohr values are taken as they are. */
  function ReadBackBohr(e: BagelAtom, angstrom: bool, c: real): Option<Point>
    requires c != 0.0
  {
    if |e.xyz| != 3 then None
    else if angstrom then Some(Point(e.xyz[0] / c, e.xyz[1] / c, e.xyz[2] / c))
    else Some(Point(e.xyz[0], e.xyz[1], e.xyz[2]))
  }

  /** With the conversion, every atom of the rewritten molecule section reads
      back, in the unit the section declares, at its own position. */
  lemma BagelInputReadsBack(data: AtomicData, sections: seq<Section>, atoms: seq<Atom>)
    requires data.bohrToAngs != 0.0
    requires BagelInput(data, sections, atoms).Ok?
    ensures var out := BagelInput(data, sections, atoms).value;
      var m := FirstMoleculeSection(sections);
      && out[m].angstrom == Some(true)
      && out[m].geometry.Some?
      && |out[m].geometry.value| == |atoms|
      && forall k :: 0 <= k < |atoms| ==>
           ReadBackBohr(out[m].geometry.value[k], true, data.bohrToAngs) == Some(atoms[k].pos)
  {
    var c := data.bohrToAngs;
    var geom := BagelGeometry(data, atoms, c).value;
    forall k | 0 <= k < |atoms|
      ensures ReadBackBohr(geom[k], true, c) == Some(atoms[k].pos)
    {
      XyzReadsBack(geom[k].atom, atoms[k].pos, c);
    }
  }

  lemma XyzReadsBack(name: string, p: Point, c: real)
    requires c != 0.0
    ensures ReadBackBohr(BagelAtom(name, Xyz(p, c)), true, c) == Some(p)
  {
    var xyz := Xyz(p, c);
    DivCancels(p.x, c);
    DivCancels(p.y, c);
    DivCancels(p.z, c);
    assert Point(xyz[0] / c, xyz[1] / c, xyz[2] / c) == p;
  }

  lemma DivCancels(x: real, c: real)
    requires c != 0.0
    ensures x * c / c == x
  {
  }

  /** As written, a hydrogen one bohr from the origin is declared to BAGEL as
      one ångström from it, which is not where it is. */
  lemma BagelAsWrittenMisplacesAtoms()
    ensures var data := AtomicData(["h"], 0.52917721092);
      var sections := [Section("molecule", None, None, map[])];
      var atoms := [Atom(1, Point(1.0, 0.0, 0.0))];
      var out := BagelInputAsWritten(data, sections, atoms);
      && out.Ok?
      && out.value[0].angstrom == Some(true)
      && out.value[0].geometry.Some?
      && |out.value[0].geometry.value| == 1
      && ReadBackBohr(out.value[0].geometry.value[0], true, data.bohrToAngs) != Some(atoms[0].pos)
  {
    var data := AtomicData(["h"], 0.52917721092);
    var sections := [Section("molecule", None, None, map[])];
    var atoms := [Atom(1, Point(1.0, 0.0, 0.0))];
    assert HasMoleculeSection(sections) by {
      assert sections[0].title == "molecule";
    }
    var geom := BagelGeometry(data, atoms, 1.0);
    assert geom.Ok?;
    assert geom.value[0].xyz == [1.0, 0.0, 0.0];
    assert 1.0 / 0.52917721092 != 1.0;
  }

  /** A line of FORCE.out as `readline()` returns it: past the end of the file
      it is the empty string. */
  function ForceFileLine(lines: seq<string>, k: nat): string {
    if k < |lines| then lines[k] else ""
  }

  /** Fields 1..3 of a gradient line, or None when `float()` or the
      three-way unpacking fails. */
  function GradientRow(line: string, parse: string -> Option<real>): (r: Option<seq<real>>)
    ensures r.Some? <==> |Words(line)| >= 4 && parse(Words(line)[1]).Some? && parse(Words(line)[2]).Some? && parse(Words(line)[3]).Some?
    ensures r.Some? ==> r.value == [parse(Words(line)[1]).value, parse(Words(line)[2]).value, parse(Words(line)[3]).value]
  {
    var parts := Words(line);
    if |parts| < 4 then None
    else match (parse(parts[1]), parse(parts[2]), parse(parts[3]))
      case (Some(x), Some(y), Some(z)) => Some([x, y, z])
      case _ => None
  }

  /** The gradient row of atom `k`, read from line `2 + k`. */
  function AtomRow(lines: seq<string>, parse: string -> Option<real>, k: nat): Option<seq<real>> {
    GradientRow(ForceFileLine(lines, 2 + k), parse)
  }

  /** The gradient rows of atoms `i..natoms-1`, concatenated. */
  function GradientRows(lines: seq<string>, parse: string -> Option<real>, i: nat, natoms: nat): (r: Result<seq<real>, CalcError>)
    requires i <= natoms
    ensures r.Ok? <==> forall k :: i <= k < natoms ==> AtomRow(lines, parse, k).Some?
    ensures r.Ok? ==> |r.value| == 3 * (natoms - i)
    ensures r.Ok? ==> forall k :: i <= k < natoms ==>
      r.value[3 * (k - i)..3 * (k - i) + 3] == AtomRow(lines, parse, k).value
    ensures r.Err? ==> exists k :: i <= k < natoms && r.error == MalformedLine(2 + k) && AtomRow(lines, parse, k).None?
    decreases natoms - i
  {
    if i == natoms then Ok([])
    else
      match AtomRow(lines, parse, i)
      case None => Err(MalformedLine(2 + i))
      case Some(row) =>
        var rest :- GradientRows(lines, parse, i + 1, natoms);
        var out := row + rest;
        assert out[0..3] == row;
        forall k | i + 1 <= k < natoms
          ensures out[3 * (k - i)..3 * (k - i) + 3] == AtomRow(lines, parse, k).value
        {
          assert out[3 * (k - i)..3 * (k - i) + 3] == rest[3 * (k - (i + 1))..3 * (k - (i + 1)) + 3];
        }
        Ok(out)
  }

  /** FORCE.out: the first line is the energy, the second is skipped, and
      fields 1..3 of line `2+i` are `grad[3i..3i+2]`; the gradient has exactly
      three entries per atom. */
  function BagelEvaluation(lines: seq<string>, natoms: nat, parse: string -> Option<real>): (r: Result<Evaluation, CalcError>)
    ensures r.Ok? <==> parse(ForceFileLine(lines, 0)).Some? &&
                       forall i :: 0 <= i < natoms ==> AtomRow(lines, parse, i).Some?
    ensures r.Ok? ==> parse(ForceFileLine(lines, 0)) == Some(r.value.energy)
    ensures r.Ok? ==> |r.value.gradient| == 3 * natoms
    ensures r.Ok? ==> forall i :: 0 <= i < natoms ==>
      r.value.gradient[3 * i..3 * i + 3] == AtomRow(lines, parse, i).value
  {
    match parse(ForceFileLine(lines, 0))
    case None => Err(BadNumber(ForceFileLine(lines, 0)))
    case Some(en) =>
      var grad :- GradientRows(lines, parse, 0, natoms);
      Ok(Evaluation(en, grad))
  }
}
