/** The packed flags of a symbol, the columns they are stored in, and how repeated saves of one symbol merge
    (src/storage/SemanticProperties.h, src/storage/Symbol.cpp, src/storage/SchemaMigration.cpp). */
module SymbolFlags {
  import opened Text
  import opened PointerBatch

  /** A 32-bit word, as the positions of the bits that are set. */
  type Word = bits: set<nat> | forall p <- bits :: p < 32

  datatype Access = Public | Protected | Private | NoAccess
  datatype RefQualifier = NoRef | LValue | RValue
  datatype Evaluation = NotConstant | Constexpr | Consteval | Constinit

  /** The boolean columns. */
  datatype Column =
    | IsDefinition | IsImplicit | IsStatic | IsVirtual | IsConst | IsInline | IsPure | IsOverride
    | HasInternalLinkage | IsExternal | IsVariadic | IsDeleted | IsDefaulted | IsExplicit | IsFinal | IsAbstract
    | IsPolymorphic | HasExternStorage | IsNoexcept | IsVolatile

  /** The columns of a row; `booleans` are the boolean columns that hold one. */
  datatype Properties = Properties(access: Access, refQualifier: RefQualifier, constantEvaluation: Evaluation,
                                   booleans: set<Column>)

  function Position(column: Column): nat {
    match column
    case IsDefinition => 2
    case IsImplicit => 3
    case IsStatic => 4
    case IsVirtual => 5
    case IsConst => 6
    case IsInline => 7
    case IsPure => 8
    case IsOverride => 11
    case HasInternalLinkage => 12
    case IsExternal => 13
    case IsVariadic => 14
    case IsDeleted => 15
    case IsDefaulted => 16
    case IsExplicit => 17
    case IsFinal => 18
    case IsAbstract => 19
    case IsPolymorphic => 20
    case HasExternStorage => 21
    case IsNoexcept => 24
    case IsVolatile => 25
  }

  /** The column of a bit, read off the shifts of the migration. */
  function ColumnAt(position: nat): Option<Column> {
    match position
    case 2 => Some(IsDefinition)
    case 3 => Some(IsImplicit)
    case 4 => Some(IsStatic)
    case 5 => Some(IsVirtual)
    case 6 => Some(IsConst)
    case 7 => Some(IsInline)
    case 8 => Some(IsPure)
    case 11 => Some(IsOverride)
    case 12 => Some(HasInternalLinkage)
    case 13 => Some(IsExternal)
    case 14 => Some(IsVariadic)
    case 15 => Some(IsDeleted)
    case 16 => Some(IsDefaulted)
    case 17 => Some(IsExplicit)
    case 18 => Some(IsFinal)
    case 19 => Some(IsAbstract)
    case 20 => Some(IsPolymorphic)
    case 21 => Some(HasExternStorage)
    case 24 => Some(IsNoexcept)
    case 25 => Some(IsVolatile)
    case _ => None
  }

  lemma ColumnOfPosition(column: Column)
    ensures ColumnAt(Position(column)) == Some(column)
  {
    match column
    case IsDefinition =>
    case IsImplicit =>
    case IsStatic =>
    case IsVirtual =>
    case IsConst =>
    case IsInline =>
    case IsPure =>
    case IsOverride =>
    case HasInternalLinkage =>
    case IsExternal =>
    case IsVariadic =>
    case IsDeleted =>
    case IsDefaulted =>
    case IsExplicit =>
    case IsFinal =>
    case IsAbstract =>
    case IsPolymorphic =>
    case HasExternStorage =>
    case IsNoexcept =>
    case IsVolatile =>
  }

  lemma PositionOfColumn(position: nat)
    ensures ColumnAt(position).Some? ==> Position(ColumnAt(position).value) == position
    ensures ColumnAt(position).Some? <==> position <= 25 && position !in {0, 1, 9, 10, 22, 23}
  {
    match position
    case 2 =>
    case 3 =>
    case 4 =>
    case 5 =>
    case 6 =>
    case 7 =>
    case 8 =>
    case 11 =>
    case 12 =>
    case 13 =>
    case 14 =>
    case 15 =>
    case 16 =>
    case 17 =>
    case 18 =>
    case 19 =>
    case 20 =>
    case 21 =>
    case 24 =>
    case 25 =>
    case _ =>
  }

  /** The bits are laid out without overlap: the boolean columns, and three pairs for the choices. */
  lemma Layout(position: nat)
    ensures forall column :: ColumnAt(Position(column)) == Some(column)
    ensures ColumnAt(position).Some? ==> Position(ColumnAt(position).value) == position
    ensures ColumnAt(position).Some? <==> position <= 25 && position !in {0, 1, 9, 10, 22, 23}
  {
    hide Position, ColumnAt;
    PositionOfColumn(position);
    forall column ensures ColumnAt(Position(column)) == Some(column) {
      ColumnOfPosition(column);
    }
  }

  // ----- packing and unpacking -----

  /** The number in a pair of neighbouring bits. */
  function Pair(flags: Word, shift: nat): nat {
    (if shift in flags then 1 else 0) + (if shift + 1 in flags then 2 else 0)
  }

  function AccessOf(flags: Word): Access {
    match Pair(flags, 0)
    case 0 => Public
    case 1 => Protected
    case 2 => Private
    case _ => NoAccess
  }

  function AccessFlags(access: Access): set<nat> {
    match access
    case Public => {}
    case Protected => {0}
    case Private => {1}
    case NoAccess => {0, 1}
  }

  function RefQualifierOf(flags: Word): RefQualifier {
    match Pair(flags, 9)
    case 1 => LValue
    case 2 => RValue
    case _ => NoRef
  }

  function RefQualifierFlags(qualifier: RefQualifier): set<nat> {
    match qualifier
    case NoRef => {}
    case LValue => {9}
    case RValue => {10}
  }

  function EvaluationOf(flags: Word): Evaluation {
    match Pair(flags, 22)
    case 1 => Constexpr
    case 2 => Consteval
    case 3 => Constinit
    case _ => NotConstant
  }

  function EvaluationFlags(evaluation: Evaluation): set<nat> {
    match evaluation
    case NotConstant => {}
    case Constexpr => {22}
    case Consteval => {23}
    case Constinit => {22, 23}
  }

  function SymbolProperties(flags: Word): Properties {
    Properties(AccessOf(flags), RefQualifierOf(flags), EvaluationOf(flags), set c: Column | Position(c) in flags)
  }

  function PackedFlags(p: Properties): Word {
    AccessFlags(p.access) + RefQualifierFlags(p.refQualifier) + EvaluationFlags(p.constantEvaluation) +
    (set c | c in p.booleans :: Position(c))
  }

  /** The packed form, one bit at a time. */
  lemma PackedBit(p: Properties, position: nat)
    ensures position in PackedFlags(p) <==>
      position in AccessFlags(p.access) || position in RefQualifierFlags(p.refQualifier) ||
      position in EvaluationFlags(p.constantEvaluation) ||
      (ColumnAt(position).Some? && ColumnAt(position).value in p.booleans)
  {
    hide Position, ColumnAt;
    Layout(position);
  }

  /** Flags survive the columns exactly if they use no bit beyond the last flag and no third ref-qualifier. */
  predicate Storable(flags: Word) {
    (forall p <- flags :: p <= 25) && Pair(flags, 9) != 3
  }

  lemma PackedIsStorable(p: Properties)
    ensures Storable(PackedFlags(p))
  {
    hide PackedFlags, Position, ColumnAt;
    forall position ensures position in PackedFlags(p) ==> position <= 25 {
      PackedBit(p, position);
      Layout(position);
    }
    PackedBit(p, 9);
    PackedBit(p, 10);
    Layout(9);
    Layout(10);
  }

  lemma FlagsRoundTrip(flags: Word)
    ensures PackedFlags(SymbolProperties(flags)) == flags <==> Storable(flags)
  {
    hide PackedFlags, Position, ColumnAt;
    if Storable(flags) {
      forall position: nat ensures position in PackedFlags(SymbolProperties(flags)) <==> position in flags {
        PackedBit(SymbolProperties(flags), position);
        Layout(position);
      }
    } else {
      PackedIsStorable(SymbolProperties(flags));
    }
  }

  lemma PropertiesRoundTrip(p: Properties)
    ensures SymbolProperties(PackedFlags(p)) == p
  {
    hide PackedFlags, Position, ColumnAt;
    PackedPair(p);
    forall c: Column ensures Position(c) in PackedFlags(p) <==> c in p.booleans {
      PackedBit(p, Position(c));
      Layout(Position(c));
    }
  }

  lemma PackedPair(p: Properties)
    ensures 0 in PackedFlags(p) <==> 0 in AccessFlags(p.access)
    ensures 1 in PackedFlags(p) <==> 1 in AccessFlags(p.access)
    ensures 9 in PackedFlags(p) <==> 9 in RefQualifierFlags(p.refQualifier)
    ensures 10 in PackedFlags(p) <==> 10 in RefQualifierFlags(p.refQualifier)
    ensures 22 in PackedFlags(p) <==> 22 in EvaluationFlags(p.constantEvaluation)
    ensures 23 in PackedFlags(p) <==> 23 in EvaluationFlags(p.constantEvaluation)
  {
    hide PackedFlags, Position;
    PackedBit(p, 0);
    PackedBit(p, 1);
    PackedBit(p, 9);
    PackedBit(p, 10);
    PackedBit(p, 22);
    PackedBit(p, 23);
  }

  /** How the schema migration decodes the flags column, shift by shift; there was no volatile column yet. */
  function MigratedProperties(flags: Word): Properties {
    Properties(
      if Pair(flags, 0) == 0 then Public else if Pair(flags, 0) == 1 then Protected
      else if Pair(flags, 0) == 2 then Private else NoAccess,
      if Pair(flags, 9) == 1 then LValue else if Pair(flags, 9) == 2 then RValue else NoRef,
      if Pair(flags, 22) == 1 then Constexpr else if Pair(flags, 22) == 2 then Consteval
      else if Pair(flags, 22) == 3 then Constinit else NotConstant,
      set p | p in flags && ColumnAt(p).Some? && p != 25 :: ColumnAt(p).value)
  }

  /** Loading a migrated row gives back the flags it was migrated from, apart from the volatile flag. */
  lemma MigrationKeepsFlags(flags: Word)
    ensures MigratedProperties(flags) ==
      SymbolProperties(flags).(booleans := SymbolProperties(flags).booleans - {IsVolatile})
    ensures Storable(flags) ==> PackedFlags(MigratedProperties(flags)) == flags - {Position(IsVolatile)}
  {
    MigratedBooleans(flags);
    hide PackedFlags, Position, ColumnAt;
    var p := MigratedProperties(flags);
    if Storable(flags) {
      forall position: nat ensures position in PackedFlags(p) <==> position in flags - {Position(IsVolatile)} {
        PackedBit(p, position);
        Layout(position);
      }
    }
  }

  lemma MigratedBooleans(flags: Word)
    ensures MigratedProperties(flags).booleans == SymbolProperties(flags).booleans - {IsVolatile}
  {
    var migrated := MigratedProperties(flags).booleans;
    assert Position(IsVolatile) == 25;
    hide Position, ColumnAt;
    forall c: Column ensures c in migrated <==> Position(c) in flags && c != IsVolatile {
      Layout(Position(c));
      Layout(Position(IsVolatile));
      if Position(c) in flags && c != IsVolatile {
        assert ColumnAt(Position(c)).Some?;
      }
      if c in migrated {
        var p :| p in flags && ColumnAt(p).Some? && p != 25 && ColumnAt(p).value == c;
        Layout(p);
      }
    }
  }

  // ----- repeated saves -----

  datatype Save = Save(flags: Word, location: Location)

  /** The columns of a symbol row that saves merge. */
  datatype Row = Row(properties: Properties, location: Location)

  function Merged(stored: Properties, saved: Properties): Properties {
    Properties(
      if saved.access != NoAccess then saved.access else stored.access,
      if saved.refQualifier != NoRef then saved.refQualifier else stored.refQualifier,
      if saved.constantEvaluation != NotConstant then saved.constantEvaluation else stored.constantEvaluation,
      ((stored.booleans + saved.booleans) - {IsExternal}) + (stored.booleans * saved.booleans * {IsExternal}))
  }

  /** The row after the saves of one USR: the first inserts it, every other one merges into it and keeps the
      location. */
  function Stored(history: seq<Save>): Row
    requires history != []
  {
    var last := history[|history| - 1];
    if |history| == 1 then Row(SymbolProperties(last.flags), last.location)
    else
      var before := Stored(history[..|history| - 1]);
      Row(Merged(before.properties, SymbolProperties(last.flags)), before.location)
  }

  /** What loading the row gives back. */
  function LoadedFlags(history: seq<Save>): Word
    requires history != []
  {
    PackedFlags(Stored(history).properties)
  }

  /** Some save had the flag of the column; of the external one, every save. */
  ghost predicate Had(history: seq<Save>, column: Column) {
    if column == IsExternal then forall save <- history :: Position(column) in save.flags
    else exists save <- history :: Position(column) in save.flags
  }

  lemma HadStep(history: seq<Save>, last: Save, column: Column)
    ensures history != [] ==>
      (Had(history + [last], column) <==>
        if column == IsExternal then Had(history, column) && Position(column) in last.flags
        else Had(history, column) || Position(column) in last.flags)
    ensures Had([last], column) <==> Position(column) in last.flags
  {
    hide Position;
    assert last in [last] && last in history + [last];
    assert forall save :: save in history + [last] <==> save in history || save == last;
  }

  lemma MergedColumn(stored: Properties, saved: Properties, column: Column)
    ensures column in Merged(stored, saved).booleans <==>
      if column == IsExternal then column in stored.booleans && column in saved.booleans
      else column in stored.booleans || column in saved.booleans
  {
  }

  /** After any saves of one symbol a boolean column holds one exactly if some save had the flag, and the external
      column exactly if every save had it. */
  lemma {:induction false} StoredColumn(history: seq<Save>, column: Column)
    requires history != []
    ensures column in Stored(history).properties.booleans <==> Had(history, column)
  {
    hide Position, Had, Merged, AccessOf, RefQualifierOf, EvaluationOf;
    var n := |history| - 1;
    var last := history[n];
    HadStep(history[..n], last, column);
    assert column in SymbolProperties(last.flags).booleans <==> Position(column) in last.flags;
    if n > 0 {
      assert history == history[..n] + [last];
      StoredColumn(history[..n], column);
      MergedColumn(Stored(history[..n]).properties, SymbolProperties(last.flags), column);
    } else {
      assert history == [last];
    }
  }

  /** The same about the flags that are loaded back. */
  lemma LoadedBit(history: seq<Save>, column: Column)
    requires history != []
    ensures Position(column) in LoadedFlags(history) <==> Had(history, column)
  {
    StoredColumn(history, column);
    hide Position, ColumnAt, PackedFlags, Stored, Had;
    PropertiesRoundTrip(Stored(history).properties);
  }

  /** The boolean flags depend on which saves there were, not on their order or number. */
  lemma OrderDoesNotMatter(left: seq<Save>, right: seq<Save>, column: Column)
    requires left != [] && right != [] && forall save :: save in left <==> save in right
    ensures Position(column) in LoadedFlags(left) <==> Position(column) in LoadedFlags(right)
  {
    hide LoadedFlags, Position;
    LoadedBit(left, column);
    LoadedBit(right, column);
  }

  function AccessesOf(history: seq<Save>): seq<Access> {
    seq(|history|, i requires 0 <= i < |history| => AccessOf(history[i].flags))
  }

  function RefQualifiersOf(history: seq<Save>): seq<RefQualifier> {
    seq(|history|, i requires 0 <= i < |history| => RefQualifierOf(history[i].flags))
  }

  function EvaluationsOf(history: seq<Save>): seq<Evaluation> {
    seq(|history|, i requires 0 <= i < |history| => EvaluationOf(history[i].flags))
  }

  /** The value that stands: the last one other than `none`, or `none` if there is no other. */
  ghost predicate Stands<T>(values: seq<T>, none: T, value: T) {
    if value == none then forall v <- values :: v == none
    else exists i | 0 <= i < |values| :: values[i] == value && forall j | i < j < |values| :: values[j] == none
  }

  lemma StandsStep<T>(values: seq<T>, none: T, value: T, more: T)
    requires Stands(values, none, value)
    ensures Stands(values + [more], none, if more != none then more else value)
  {
    var longer := values + [more];
    if more != none {
      assert longer[|values|] == more;
    } else if value != none {
      var i :| 0 <= i < |values| && values[i] == value && forall j | i < j < |values| :: values[j] == none;
      assert longer[i] == value;
    }
  }

  lemma StandsOne<T>(none: T, value: T)
    ensures Stands([value], none, value)
  {
    assert [value][0] == value;
  }

  /** Access, ref-qualifier and constant evaluation are the last ones other than none; the location is the first. */
  lemma {:induction false} StoredChoices(history: seq<Save>)
    requires history != []
    ensures var p := Stored(history).properties;
      Stands(AccessesOf(history), NoAccess, p.access) &&
      Stands(RefQualifiersOf(history), NoRef, p.refQualifier) &&
      Stands(EvaluationsOf(history), NotConstant, p.constantEvaluation)
    ensures Stored(history).location == history[0].location
  {
    hide Position, AccessOf, RefQualifierOf, EvaluationOf, Stands;
    var n := |history| - 1;
    var last := SymbolProperties(history[n].flags);
    if n == 0 {
      StandsOne(NoAccess, last.access);
      StandsOne(NoRef, last.refQualifier);
      StandsOne(NotConstant, last.constantEvaluation);
      assert AccessesOf(history) == [last.access] && RefQualifiersOf(history) == [last.refQualifier];
      assert EvaluationsOf(history) == [last.constantEvaluation];
    } else {
      StoredChoices(history[..n]);
      var before := Stored(history[..n]).properties;
      StandsStep(AccessesOf(history[..n]), NoAccess, before.access, last.access);
      StandsStep(RefQualifiersOf(history[..n]), NoRef, before.refQualifier, last.refQualifier);
      StandsStep(EvaluationsOf(history[..n]), NotConstant, before.constantEvaluation, last.constantEvaluation);
      assert AccessesOf(history) == AccessesOf(history[..n]) + [last.access];
      assert RefQualifiersOf(history) == RefQualifiersOf(history[..n]) + [last.refQualifier];
      assert EvaluationsOf(history) == EvaluationsOf(history[..n]) + [last.constantEvaluation];
    }
  }
}
