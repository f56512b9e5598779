/** The committed file with a run's --mask and --unmask requests folded in, and the check
    that each mask came out as asked (internal/core/mask.go:40-186, 232-302). */
module PriorInputs {
  import opened Common
  import opened Decisions
  import opened SortedText
  import N = Names
  import RP = RaisingPasses
  import CR = ClassifyRun
  import KP = KeyPropagation
  import MR = MaskRequests

  // ---------- what is asked ----------

  /** A `mask:` record; no category stands for the default one. */
  datatype FileMask = FileMask(category: Option<Category>, byFlag: bool)

  /** One column's entry in the committed file. */
  datatype Entry = Entry(config: RP.ColumnConfig, mask: Option<FileMask>)

  /** What --mask gives as its category: nothing, one of the names, or a misspelling. */
  datatype MaskArg = Bare | Chosen(category: Category) | Misspelt

  datatype MaskRequest = MaskRequest(category: Category, byFlag: bool)

  datatype Refusal = BadCategory | BadName(why: N.Refusal) | TwoCategories | BothWays

  datatype Built =
    | Refused(why: Refusal)
    | Built(prior: map<ColumnRef, Entry>, unmask: map<ColumnRef, string>, masks: map<ColumnRef, MaskRequest>,
            flags: map<ColumnRef, Category>)

  const DEFAULT_CATEGORY := FreeText

  /** CheckMaskCategory, the bare form read as the default. */
  function Asked(a: MaskArg): Option<Category> {
    match a
    case Bare => Some(DEFAULT_CATEGORY)
    case Chosen(c) => if c == CatNone then None else Some(c)
    case Misspelt => None
  }

  function Meaning(name: string, catalog: seq<Table>): N.Resolved<ColumnRef> {
    match N.Split(name)
    case None => N.Refused(N.UnbalancedQuote)
    case Some(parts) => N.ColumnOf(parts, catalog)
  }

  const NO_ENTRY := Entry(RP.ColumnConfig(None, CONF_NONE, None), None)

  function FileOf(committed: Option<map<ColumnRef, Entry>>): map<ColumnRef, Entry> {
    if committed.Some? then committed.value else map[]
  }

  function EntryOf(file: map<ColumnRef, Entry>, c: ColumnRef): Entry {
    if c in file then file[c] else NO_ENTRY
  }

  /** raisedForMask: the category, the top confidence and no opt-out. */
  function RaisedFor(e: Entry, category: Category): Entry {
    e.(config := RP.ColumnConfig(Some(category), CONF_CERTAIN, None))
  }

  function FileCategory(m: FileMask): Category {
    if m.category.Some? then m.category.value else DEFAULT_CATEGORY
  }

  // ---------- the requests, by column ----------

  predicate NamesColumn(name: string, catalog: seq<Table>, c: ColumnRef) {
    Meaning(name, catalog) == N.Found(c)
  }

  /** One category per column the --mask flags name. */
  ghost predicate FlagsRead(args: map<string, MaskArg>, names: set<string>, catalog: seq<Table>,
                            flags: map<ColumnRef, Category>) {
    && (forall n :: n in names && n in args ==>
          Asked(args[n]).Some? && Meaning(n, catalog).Found? && Meaning(n, catalog).value in flags
          && flags[Meaning(n, catalog).value] == Asked(args[n]).value)
    && (forall c :: c in flags ==> exists n :: n in names && n in args && NamesColumn(n, catalog, c))
  }

  /** The --mask flags cannot be read as one category per column. */
  ghost predicate NothingReads(args: map<string, MaskArg>, catalog: seq<Table>) {
    forall f :: !FlagsRead(args, args.Keys, catalog, f)
  }

  ghost predicate OptOutsRead(args: map<string, string>, names: set<string>, catalog: seq<Table>,
                              unmask: map<ColumnRef, string>) {
    && (forall n :: n in names && n in args ==> Meaning(n, catalog).Found? && Meaning(n, catalog).value in unmask)
    && (forall c :: c in unmask ==> exists n :: n in names && n in args && NamesColumn(n, catalog, c) && unmask[c] == args[n])
  }

  lemma OneMoreFlag(args: map<string, MaskArg>, names: set<string>, catalog: seq<Table>, flags: map<ColumnRef, Category>,
                    name: string, col: ColumnRef, category: Category)
    requires FlagsRead(args, names, catalog, flags) && name in args && Asked(args[name]) == Some(category)
    requires Meaning(name, catalog) == N.Found(col) && (col in flags ==> flags[col] == category)
    ensures FlagsRead(args, names + {name}, catalog, flags[col := category])
  {
    hide Meaning, Asked;
    var more := flags[col := category];
    assert NamesColumn(name, catalog, col);
    forall c | c in more ensures exists n :: n in names + {name} && n in args && NamesColumn(n, catalog, c) {
      if c != col {
        var n :| n in names && n in args && NamesColumn(n, catalog, c);
      }
    }
  }

  /** What a reading makes of one --mask flag: its name is a column's, and the category is
      free text for the bare form, or the one named, which is never none. */
  lemma FlagMeansWhatItSays(args: map<string, MaskArg>, catalog: seq<Table>, flags: map<ColumnRef, Category>, n: string)
    requires FlagsRead(args, args.Keys, catalog, flags) && n in args
    ensures N.Split(n).Some? && N.ColumnOf(N.Split(n).value, catalog).Found?
    ensures var c := N.ColumnOf(N.Split(n).value, catalog).value;
      c in flags && match args[n]
        case Bare => flags[c] == FreeText
        case Chosen(k) => k != CatNone && flags[c] == k
        case Misspelt => false
  {
    hide N.Split, N.ColumnOf;
  }

  /** A category or a name that means nothing leaves the flags without a reading. */
  lemma NoReading(args: map<string, MaskArg>, catalog: seq<Table>, name: string)
    requires name in args && (Asked(args[name]).None? || Meaning(name, catalog).Refused?)
    ensures NothingReads(args, catalog)
  {
    hide Meaning, Asked;
  }

  /** So do two names of one column with two categories. */
  lemma NoDoubleReading(args: map<string, MaskArg>, names: set<string>, catalog: seq<Table>, flags: map<ColumnRef, Category>,
                        name: string, col: ColumnRef)
    requires names <= args.Keys && name in args && col in flags && Some(flags[col]) != Asked(args[name])
    requires Meaning(name, catalog) == N.Found(col)
    ensures FlagsRead(args, names, catalog, flags) ==> NothingReads(args, catalog)
  {
    hide Meaning, Asked;
    if !FlagsRead(args, names, catalog, flags) {
      return;
    }
    var n :| n in names && n in args && NamesColumn(n, catalog, col);
    assert Asked(args[n]) == Some(flags[col]) && Asked(args[n]) != Asked(args[name]);
    hide FlagsRead;
    forall f ensures !FlagsRead(args, args.Keys, catalog, f) {
      ReadingGives(args, catalog, f, n, col);
      ReadingGives(args, catalog, f, name, col);
    }
  }

  lemma ReadingGives(args: map<string, MaskArg>, catalog: seq<Table>, f: map<ColumnRef, Category>, name: string, col: ColumnRef)
    requires name in args && Meaning(name, catalog) == N.Found(col)
    ensures FlagsRead(args, args.Keys, catalog, f) ==> col in f && Asked(args[name]) == Some(f[col])
  {
    hide Meaning, Asked;
  }

  lemma OneMoreOptOut(args: map<string, string>, names: set<string>, catalog: seq<Table>, unmask: map<ColumnRef, string>,
                      name: string, col: ColumnRef)
    requires OptOutsRead(args, names, catalog, unmask) && name in args && Meaning(name, catalog) == N.Found(col)
    ensures OptOutsRead(args, names + {name}, catalog, unmask[col := args[name]])
  {
    hide Meaning;
    var more := unmask[col := args[name]];
    assert NamesColumn(name, catalog, col);
    forall c | c in more
      ensures exists n :: n in names + {name} && n in args && NamesColumn(n, catalog, c) && more[c] == args[n]
    {
      if c != col {
        var n :| n in names && n in args && NamesColumn(n, catalog, c) && unmask[c] == args[n];
      }
    }
  }

  datatype Flags = BadFlags(why: Refusal) | Flags(masks: map<ColumnRef, Category>)

  /** One --mask flag beside those already read. */
  method ReadOneFlag(args: map<string, MaskArg>, catalog: seq<Table>, ghost names: set<string>, flags: map<ColumnRef, Category>, name: string)
    returns (r: Flags)
    requires name in args && names <= args.Keys && FlagsRead(args, names, catalog, flags)
    ensures r.Flags? ==> FlagsRead(args, names + {name}, catalog, r.masks)
    ensures r.BadFlags? ==> NothingReads(args, catalog)
  {
    hide Meaning, Asked, FlagsRead;
    var category := Asked(args[name]);
    if category.None? {
      NoReading(args, catalog, name);
      return BadFlags(BadCategory);
    }
    var col := ResolveColumn(name, catalog);
    if col.Refused? {
      NoReading(args, catalog, name);
      return BadFlags(BadName(col.why));
    }
    if col.value in flags && flags[col.value] != category.value {
      NoDoubleReading(args, names, catalog, flags, name, col.value);
      return BadFlags(TwoCategories);
    }
    OneMoreFlag(args, names, catalog, flags, name, col.value, category.value);
    return Flags(flags[col.value := category.value]);
  }

  method ReadMaskFlags(args: map<string, MaskArg>, catalog: seq<Table>) returns (r: Flags)
    ensures r.Flags? ==> FlagsRead(args, args.Keys, catalog, r.masks)
    ensures r.BadFlags? ==> NothingReads(args, catalog)
  {
    var names := SortedElements(args.Keys);
    assert Elements(names) == args.Keys;
    assert FlagsRead(args, Elements(names[..0]), catalog, map[]);
    hide FlagsRead, InOrder, Ordered, Elements, NothingReads;
    r := Flags(map[]);
    for i := 0 to |names|
      invariant r.Flags? && FlagsRead(args, Elements(names[..i]), catalog, r.masks)
    {
      ElementsSnoc(names, i);
      r := ReadOneFlag(args, catalog, Elements(names[..i]), r.masks, names[i]);
      if r.BadFlags? {
        return;
      }
    }
    assert names[..|names|] == names;
  }

  method ResolveColumn(name: string, catalog: seq<Table>) returns (r: N.Resolved<ColumnRef>)
    ensures r == Meaning(name, catalog)
  {
    r := N.ResolveColumn(name, catalog);
  }

  /** An --unmask name that means no column, or one a --mask flag names too. */
  predicate MisreadOptOut(catalog: seq<Table>, masked: set<ColumnRef>, name: string) {
    match Meaning(name, catalog) case Refused(_) => true case Found(c) => c in masked
  }

  lemma IsMisread(catalog: seq<Table>, masked: set<ColumnRef>, name: string)
    requires Meaning(name, catalog).Refused? || Meaning(name, catalog).value in masked
    ensures MisreadOptOut(catalog, masked, name)
  {
  }

  datatype OptOuts = BadOptOuts(why: Refusal) | OptOuts(unmask: map<ColumnRef, string>)

  method ReadUnmaskFlags(args: map<string, string>, catalog: seq<Table>, flags: map<ColumnRef, Category>) returns (r: OptOuts)
    ensures r.OptOuts? ==> OptOutsRead(args, args.Keys, catalog, r.unmask) && flags.Keys !! r.unmask.Keys
    ensures r.BadOptOuts? ==> exists n :: n in args && MisreadOptOut(catalog, flags.Keys, n)
  {
    hide Meaning;
    var names := SortedElements(args.Keys);
    assert OptOutsRead(args, Elements(names[..0]), catalog, map[]);
    hide OptOutsRead, MisreadOptOut, InOrder, Ordered, Elements;
    var unmask: map<ColumnRef, string> := map[];
    for i := 0 to |names|
      invariant OptOutsRead(args, Elements(names[..i]), catalog, unmask) && flags.Keys !! unmask.Keys
    {
      var name := names[i];
      ElementsSnoc(names, i);
      var col := ResolveColumn(name, catalog);
      if col.Refused? {
        IsMisread(catalog, flags.Keys, name);
        return BadOptOuts(BadName(col.why));
      }
      if col.value in flags {
        IsMisread(catalog, flags.Keys, name);
        return BadOptOuts(BothWays);
      }
      OneMoreOptOut(args, Elements(names[..i]), catalog, unmask, name, col.value);
      unmask := unmask[col.value := args[name]];
    }
    assert names[..|names|] == names;
    return OptOuts(unmask);
  }

  // ---------- the prior ----------

  function FlagOptOut(e: Entry, reason: string): Entry {
    e.(config := e.config.(unmask := Some(RP.Unmask(reason, "", true))))
  }

  /** One column's entry with everything folded in. */
  function Folded(file: map<ColumnRef, Entry>, unmask: map<ColumnRef, string>, flags: map<ColumnRef, Category>, c: ColumnRef): Entry {
    var e := EntryOf(file, c);
    if c in unmask then FlagOptOut(e.(mask := None), unmask[c])
    else if c in flags then RaisedFor(e, flags[c]).(mask := Some(FileMask(Some(flags[c]), true)))
    else if e.mask.Some? then RaisedFor(e, FileCategory(e.mask.value))
    else e
  }

  function RequestOf(file: map<ColumnRef, Entry>, flags: map<ColumnRef, Category>, c: ColumnRef): MaskRequest {
    if c in flags then MaskRequest(flags[c], true)
    else if EntryOf(file, c).mask.Some? then MaskRequest(FileCategory(EntryOf(file, c).mask.value), false)
    else MaskRequest(CatNone, false)
  }

  predicate IsMaskRequest(file: map<ColumnRef, Entry>, unmask: map<ColumnRef, string>, flags: map<ColumnRef, Category>, c: ColumnRef) {
    c !in unmask && (c in flags || (c in file && file[c].mask.Some?))
  }

  /** What the file's own `mask:` record makes of its entry. */
  function FileFolded(e: Entry, optedOut: bool): Entry {
    if e.mask.None? then e
    else if optedOut then e.(mask := None)
    else RaisedFor(e, FileCategory(e.mask.value))
  }

  /** The loop over the file's own `mask:` records. */
  method FoldFileMasks(file: map<ColumnRef, Entry>, unmask: map<ColumnRef, string>)
    returns (prior: map<ColumnRef, Entry>, masks: map<ColumnRef, MaskRequest>)
    ensures prior.Keys == file.Keys
    ensures forall c :: c in file ==> prior[c] == FileFolded(file[c], c in unmask)
    ensures AllRequested(file, unmask, map[], masks)
  {
    prior, masks := file, map[];
    var rest := file.Keys;
    while rest != {}
      invariant rest <= file.Keys == prior.Keys
      invariant forall c :: c in rest ==> prior[c] == file[c]
      invariant forall c :: c in file && c !in rest ==> prior[c] == FileFolded(file[c], c in unmask)
      invariant forall c :: c in masks <==> c in file && c !in rest && file[c].mask.Some? && c !in unmask
      invariant forall c :: c in masks ==> masks[c] == MaskRequest(FileCategory(file[c].mask.value), false)
      decreases rest
    {
      var c :| c in rest;
      rest := rest - {c};
      var e := prior[c];
      if e.mask.None? {
        continue;
      }
      if c in unmask {
        prior := prior[c := e.(mask := None)];
        continue;
      }
      var category := FileCategory(e.mask.value);
      prior := prior[c := RaisedFor(e, category)];
      masks := masks[c := MaskRequest(category, false)];
    }
  }

  ghost predicate AllFolded(file: map<ColumnRef, Entry>, unmask: map<ColumnRef, string>, flags: map<ColumnRef, Category>,
                      prior: map<ColumnRef, Entry>) {
    forall c :: c in prior ==> prior[c] == Folded(file, unmask, flags, c)
  }

  ghost predicate AllRequested(file: map<ColumnRef, Entry>, unmask: map<ColumnRef, string>, flags: map<ColumnRef, Category>,
                         masks: map<ColumnRef, MaskRequest>) {
    && (forall c :: c in masks <==> IsMaskRequest(file, unmask, flags, c))
    && (forall c :: c in masks ==> masks[c] == RequestOf(file, flags, c))
  }

  /** The three loops, one after the other, on one column's entry. */
  lemma FoldedInSteps(file: map<ColumnRef, Entry>, unmask: map<ColumnRef, string>, flags: map<ColumnRef, Category>, c: ColumnRef)
    requires flags.Keys !! unmask.Keys
    ensures var one := FileFolded(EntryOf(file, c), c in unmask);
      var two := if c in unmask then FlagOptOut(one, unmask[c]) else one;
      Folded(file, unmask, flags, c) == if c in flags then FlagRaised(two, flags[c]) else two
  {
  }

  /** The columns the --mask flags name are the same in every reading of them. */
  lemma OneReading(args: map<string, MaskArg>, catalog: seq<Table>, f: map<ColumnRef, Category>, g: map<ColumnRef, Category>)
    requires FlagsRead(args, args.Keys, catalog, f) && FlagsRead(args, args.Keys, catalog, g)
    ensures f == g
  {
    hide Meaning, Asked;
    OneWay(args, catalog, f, g);
    OneWay(args, catalog, g, f);
  }

  lemma OneWay(args: map<string, MaskArg>, catalog: seq<Table>, f: map<ColumnRef, Category>, g: map<ColumnRef, Category>)
    requires FlagsRead(args, args.Keys, catalog, f) && FlagsRead(args, args.Keys, catalog, g)
    ensures forall c :: c in f ==> c in g && g[c] == f[c]
  {
    hide Meaning, Asked, FlagsRead;
    forall c | c in f ensures c in g && g[c] == f[c] {
      var n := ReadFrom(args, catalog, f, c);
      ReadingGives(args, catalog, f, n, c);
      ReadingGives(args, catalog, g, n, c);
    }
  }

  lemma ReadFrom(args: map<string, MaskArg>, catalog: seq<Table>, f: map<ColumnRef, Category>, c: ColumnRef) returns (n: string)
    requires FlagsRead(args, args.Keys, catalog, f) && c in f
    ensures n in args && Meaning(n, catalog) == N.Found(c)
  {
    hide Meaning, Asked;
    n :| n in args.Keys && n in args && NamesColumn(n, catalog, c);
  }

  /** buildPrior. It refuses the requests exactly when they have no reading: a bad name or
      category, two categories for one column, or a column named both ways. */
  method BuildPrior(committed: Option<map<ColumnRef, Entry>>, catalog: seq<Table>,
                    maskArgs: map<string, MaskArg>, unmaskArgs: map<string, string>) returns (r: Built)
    ensures r.Built? ==>
      && FlagsRead(maskArgs, maskArgs.Keys, catalog, r.flags)
      && OptOutsRead(unmaskArgs, unmaskArgs.Keys, catalog, r.unmask) && r.flags.Keys !! r.unmask.Keys
      && r.prior.Keys == FileOf(committed).Keys + r.flags.Keys + r.unmask.Keys
      && AllFolded(FileOf(committed), r.unmask, r.flags, r.prior)
      && AllRequested(FileOf(committed), r.unmask, r.flags, r.masks)
    ensures r.Refused? ==> forall f :: FlagsRead(maskArgs, maskArgs.Keys, catalog, f) ==>
      exists n :: n in unmaskArgs && MisreadOptOut(catalog, f.Keys, n)
  {
    hide FlagsRead, OptOutsRead, MisreadOptOut, AllFolded, AllRequested;
    var read := ReadMaskFlags(maskArgs, catalog);
    if read.BadFlags? {
      return Refused(read.why);
    }
    var outs := ReadUnmaskFlags(unmaskArgs, catalog, read.masks);
    if outs.BadOptOuts? {
      forall f | FlagsRead(maskArgs, maskArgs.Keys, catalog, f)
        ensures exists n :: n in unmaskArgs && MisreadOptOut(catalog, f.Keys, n)
      {
        OneReading(maskArgs, catalog, f, read.masks);
      }
      return Refused(outs.why);
    }
    var prior, masks := FoldAll(FileOf(committed), outs.unmask, read.masks);
    return Built(prior, outs.unmask, masks, read.masks);
  }

  method FoldAll(file: map<ColumnRef, Entry>, unmask: map<ColumnRef, string>, flags: map<ColumnRef, Category>)
    returns (prior: map<ColumnRef, Entry>, masks: map<ColumnRef, MaskRequest>)
    requires flags.Keys !! unmask.Keys
    ensures prior.Keys == file.Keys + flags.Keys + unmask.Keys
    ensures AllFolded(file, unmask, flags, prior) && AllRequested(file, unmask, flags, masks)
  {
    hide FlagOptOut, FlagRaised, FileFolded, Folded, AllRequested;
    var raised, asked := FoldFileMasks(file, unmask);
    var opted := FoldOptOuts(raised, unmask);
    prior, masks := FoldMaskFlags(opted, asked, flags);
    RequestsJoin(file, unmask, flags, asked, masks);
    EmptyEntryStays();
    forall c | c in prior ensures prior[c] == Folded(file, unmask, flags, c) {
      FoldedInSteps(file, unmask, flags, c);
      assert EntryOf(raised, c) == FileFolded(EntryOf(file, c), c in unmask);
    }
  }

  lemma RequestsJoin(file: map<ColumnRef, Entry>, unmask: map<ColumnRef, string>, flags: map<ColumnRef, Category>,
                     asked: map<ColumnRef, MaskRequest>, masks: map<ColumnRef, MaskRequest>)
    requires flags.Keys !! unmask.Keys && AllRequested(file, unmask, map[], asked)
    requires masks.Keys == asked.Keys + flags.Keys
    requires forall c :: c in masks ==> masks[c] == if c in flags then MaskRequest(flags[c], true) else asked[c]
    ensures AllRequested(file, unmask, flags, masks)
  {
    hide FileCategory;
  }

  lemma EmptyEntryStays()
    ensures FileFolded(NO_ENTRY, true) == NO_ENTRY && FileFolded(NO_ENTRY, false) == NO_ENTRY
  {
  }

  /** The loop over the --unmask flags. */
  method FoldOptOuts(before: map<ColumnRef, Entry>, unmask: map<ColumnRef, string>) returns (prior: map<ColumnRef, Entry>)
    ensures prior.Keys == before.Keys + unmask.Keys
    ensures forall c :: c in prior ==>
      prior[c] == if c in unmask then FlagOptOut(EntryOf(before, c), unmask[c]) else EntryOf(before, c)
  {
    hide FlagOptOut;
    prior := before;
    var rest := unmask.Keys;
    while rest != {}
      invariant rest <= unmask.Keys && prior.Keys == before.Keys + (unmask.Keys - rest)
      invariant forall c :: c in prior ==>
        prior[c] == if c in unmask && c !in rest then FlagOptOut(EntryOf(before, c), unmask[c]) else EntryOf(before, c)
      decreases rest
    {
      var c :| c in rest;
      rest := rest - {c};
      prior := prior[c := FlagOptOut(EntryOf(prior, c), unmask[c])];
    }
  }

  function FlagRaised(e: Entry, category: Category): Entry {
    RaisedFor(e, category).(mask := Some(FileMask(Some(category), true)))
  }

  /** The loop over the --mask flags. */
  method FoldMaskFlags(before: map<ColumnRef, Entry>, asked: map<ColumnRef, MaskRequest>, flags: map<ColumnRef, Category>)
    returns (prior: map<ColumnRef, Entry>, masks: map<ColumnRef, MaskRequest>)
    ensures prior.Keys == before.Keys + flags.Keys && masks.Keys == asked.Keys + flags.Keys
    ensures forall c :: c in prior ==>
      prior[c] == if c in flags then FlagRaised(EntryOf(before, c), flags[c]) else EntryOf(before, c)
    ensures forall c :: c in masks ==> masks[c] == if c in flags then MaskRequest(flags[c], true) else asked[c]
  {
    hide FlagRaised;
    prior, masks := before, asked;
    var rest := flags.Keys;
    while rest != {}
      invariant rest <= flags.Keys
      invariant prior.Keys == before.Keys + (flags.Keys - rest) && masks.Keys == asked.Keys + (flags.Keys - rest)
      invariant forall c :: c in prior ==>
        prior[c] == if c in flags && c !in rest then FlagRaised(EntryOf(before, c), flags[c]) else EntryOf(before, c)
      invariant forall c :: c in masks ==>
        masks[c] == if c in flags && c !in rest then MaskRequest(flags[c], true) else asked[c]
      decreases rest
    {
      var c :| c in rest;
      rest := rest - {c};
      prior := prior[c := FlagRaised(EntryOf(prior, c), flags[c])];
      masks := masks[c := MaskRequest(flags[c], true)];
    }
  }

  // ---------- a mask only ever tightens ----------

  function ConfigsOf(prior: map<ColumnRef, Entry>): map<ColumnRef, RP.ColumnConfig> {
    map c | c in prior :: prior[c].config
  }

  /** A mask request reaches the classifier as a raise to certain with no opt-out beside
      it; an opt-out of this run drops the file's own mask; and an entry that no request
      and no mask record names is the file's. */
  lemma EachEntryHasOneSide(file: map<ColumnRef, Entry>, unmask: map<ColumnRef, string>, flags: map<ColumnRef, Category>, c: ColumnRef)
    requires flags.Keys !! unmask.Keys
    ensures var e := Folded(file, unmask, flags, c);
      && (IsMaskRequest(file, unmask, flags, c) ==>
            e.config == RP.ColumnConfig(Some(RequestOf(file, flags, c).category), CONF_CERTAIN, None))
      && (c in unmask ==> e.mask.None? && e.config.unmask == Some(RP.Unmask(unmask[c], "", true)))
      && (c in unmask ==> e.config.category == EntryOf(file, c).config.category)
      && (e.mask.Some? <==> IsMaskRequest(file, unmask, flags, c))
      && (!IsMaskRequest(file, unmask, flags, c) && c !in unmask ==> e == EntryOf(file, c))
  {
  }

  /** Masked, never masked, or of a type the asked category refuses. */
  predicate Answered(pack: Accepts, category: Category, w: Work) {
    w.Masked() || w.neverMask || !Accepted(pack, category, w.col.family)
  }

  /** No type accepts the category none: decodePack refuses a rule pack that lists it. */
  predicate NoneUnlisted(pack: Accepts) {
    CatNone !in pack
  }

  lemma VisitAnswers(pack: Accepts, category: Category, w: Work)
    requires NoneUnlisted(pack) && !w.unmasked
    ensures var w' := RP.ColumnVisit(pack, RP.ColumnConfig(Some(category), CONF_CERTAIN, None), w).work;
      Answered(pack, category, w') && !w'.unmasked && w'.col == w.col
  {
  }

  lemma {:induction false} ColumnsAnswer(pack: Accepts, prior: RP.Prior, order: seq<ColumnRef>, f: RP.Folded,
                                         c: ColumnRef, category: Category)
    requires NoneUnlisted(pack) && c in prior.columns && c in f.dec && !f.dec[c].unmasked
    requires prior.columns[c] == RP.ColumnConfig(Some(category), CONF_CERTAIN, None)
    ensures var d := RP.ApplyColumns(pack, prior, order, f).dec;
      c in d && !d[c].unmasked && (c in order ==> Answered(pack, category, d[c]))
  {
    hide RP.ColumnVisit, Answered;
    if order != [] {
      var most := order[..|order| - 1];
      ColumnsAnswer(pack, prior, most, f, c, category);
      var g := RP.ApplyColumns(pack, prior, most, f);
      VisitAnswers(pack, category, g.dec[c]);
      assert c in order && c != order[|order| - 1] ==> c in most;
    }
  }

  lemma {:induction false} SweepKeepsAnswer(r: KP.Rules, ps: seq<Pair>, d: Dec, c: ColumnRef, category: Category)
    requires c in d && Answered(r.pack, category, d[c])
    ensures var d' := KP.PropagateSweep(r, ps, d).dec; c in d' && Answered(r.pack, category, d'[c])
  {
    if ps != [] {
      SweepKeepsAnswer(r, ps[..|ps| - 1], d, c, category);
    }
  }

  lemma {:induction false} RoundsKeepAnswer(r: KP.Rules, ps: seq<Pair>, d: Dec, c: ColumnRef, category: Category, n: nat)
    requires c in d && Answered(r.pack, category, d[c])
    ensures var d' := KP.PropagateRounds(r, ps, d, n).dec; c in d' && Answered(r.pack, category, d'[c])
    decreases n
  {
    hide Answered;
    if n > 0 {
      SweepKeepsAnswer(r, ps, d, c, category);
      if KP.PropagateSweep(r, ps, d).changed {
        RoundsKeepAnswer(r, ps, KP.PropagateSweep(r, ps, d).dec, c, category, n - 1);
      }
    }
  }

  /** A column the run was asked to mask comes out of every pass masked, unless it is one
      the classifier never masks or its type refuses the asked category. */
  lemma RequestsAreAnswered(e: CR.Env, prior: RP.Prior, d: Dec, c: ColumnRef, category: Category)
    requires CR.NoneOptedOut(d) && c in d && c in e.order && NoneUnlisted(e.rules.pack)
    requires c in prior.columns && prior.columns[c] == RP.ColumnConfig(Some(category), CONF_CERTAIN, None)
    ensures var end := CR.Concluded(e, Some(prior), d); c in end && Answered(e.rules.pack, category, end[c])
  {
    hide Answered, RP.ApplyColumns, RP.ApplyPatterns, KP.PropagateRounds, CR.Shared;
    var ps := AllPairs(e.fks);
    var a := CR.Exempted(e, d);
    KP.ReconcileRoundsExemptOnly(ps, d, |e.fks| + 1);
    CR.AfterExemption(e, Some(prior), a);
    var s := CR.Shared(e, CR.Propagated(e, a));
    assert a.Keys == d.Keys && s.Keys == a.Keys;
    var start := RP.Folded(s, false);
    RP.ApplyPatternsMasksMore(e.rules.pack, prior.patterns, e.order, start);
    var mid := RP.ApplyPatterns(e.rules.pack, prior.patterns, e.order, start);
    assert !mid.dec[c].unmasked;
    ColumnsAnswer(e.rules.pack, prior, e.order, mid, c, category);
    RoundsKeepAnswer(e.rules, ps, RP.ApplyColumns(e.rules.pack, prior, e.order, mid).dec, c, category, |e.fks| + 1);
  }

  /** So with the prior buildPrior hands over, every mask it recorded is answered. */
  lemma EveryRequestIsAnswered(file: map<ColumnRef, Entry>, unmask: map<ColumnRef, string>, flags: map<ColumnRef, Category>,
                               prior: map<ColumnRef, Entry>, masks: map<ColumnRef, MaskRequest>,
                               e: CR.Env, patterns: seq<RP.Pattern>, d: Dec, c: ColumnRef)
    requires flags.Keys !! unmask.Keys && prior.Keys == file.Keys + flags.Keys + unmask.Keys
    requires AllFolded(file, unmask, flags, prior) && AllRequested(file, unmask, flags, masks)
    requires c in masks && NoneUnlisted(e.rules.pack)
    requires CR.NoneOptedOut(d) && c in d && c in e.order
    ensures var end := CR.Concluded(e, Some(RP.Prior(patterns, ConfigsOf(prior))), d);
      c in end && Answered(e.rules.pack, masks[c].category, end[c])
  {
    hide CR.Concluded, CR.NoneOptedOut, Answered, Folded;
    EachEntryHasOneSide(file, unmask, flags, c);
    assert prior[c] == Folded(file, unmask, flags, c);
    RequestsAreAnswered(e, RP.Prior(patterns, ConfigsOf(prior)), d, c, masks[c].category);
  }

  // ---------- checkMasks ----------

  datatype Reason =
    | NeverMasked
    | TypeRefuses
    | AlreadyMaskedAs(category: Category)
    | CameOutAs(category: Category)
    | ChildInClear(child: ColumnRef)

  datatype Classified = Classified(
    decisions: map<ColumnRef, Decision>,
    baseline: Option<map<ColumnRef, Decision>>,
    fks: seq<ForeignKey>,
    generated: set<ColumnRef>)

  /** The classifier masked the column without the flag, under another category. */
  predicate MaskedOtherwise(o: Classified, c: ColumnRef, category: Category) {
    o.baseline.Some? && c in o.baseline.value && o.baseline.value[c].masked && o.baseline.value[c].category != category
  }

  /** What the column's own decision has against the request. */
  function Objection(o: Classified, c: ColumnRef, m: MaskRequest): Option<Reason>
    requires c in o.decisions
  {
    var d := o.decisions[c];
    if !d.masked && d.neverMasked then Some(NeverMasked)
    else if !d.masked then Some(TypeRefuses)
    else if m.byFlag && MaskedOtherwise(o, c, m.category) then Some(AlreadyMaskedAs(o.baseline.value[c].category))
    else if m.byFlag && d.category != m.category then Some(CameOutAs(d.category))
    else None
  }

  predicate Objects(o: Classified, masks: map<ColumnRef, MaskRequest>, c: ColumnRef, why: Reason) {
    c in masks && c in o.decisions &&
    match Objection(o, c, masks[c])
    case Some(r) => why == r
    case None => why.ChildInClear? && MR.CopiedChild(o.fks, o.decisions, o.generated, c, why.child)
  }

  method CheckMasks(o: Classified, masks: map<ColumnRef, MaskRequest>) returns (refused: set<(ColumnRef, Reason)>)
    ensures forall c, why :: (c, why) in refused <==> Objects(o, masks, c, why)
  {
    hide MR.CopiedChild;
    refused := {};
    var rest := masks.Keys;
    while rest != {}
      invariant rest <= masks.Keys
      invariant forall c, why :: (c, why) in refused <==> c !in rest && Objects(o, masks, c, why)
      decreases rest
    {
      var c :| c in rest;
      rest := rest - {c};
      if c !in o.decisions {
        continue;
      }
      var objection := Objection(o, c, masks[c]);
      if objection.Some? {
        refused := refused + {(c, objection.value)};
        continue;
      }
      var children := MR.UnmaskedChildren(o.fks, o.decisions, o.generated, c);
      refused := refused + set child | child in children :: (c, ChildInClear(child));
    }
  }

  /** A run the check lets pass masks every requested column, a flag's under the category
      it named and without changing a masker the column already had, and copies no child
      of one in clear unless the child is opted out. */
  lemma AcceptedRunMasksEveryRequest(o: Classified, masks: map<ColumnRef, MaskRequest>, c: ColumnRef)
    requires forall x, why :: !Objects(o, masks, x, why)
    requires c in masks && c in o.decisions
    ensures o.decisions[c].masked && (masks[c].byFlag ==> o.decisions[c].category == masks[c].category)
    ensures masks[c].byFlag && o.baseline.Some? && c in o.baseline.value && o.baseline.value[c].masked ==>
      o.baseline.value[c].category == o.decisions[c].category
    ensures forall p :: p in AllPairs(o.fks) && p.parent == c && p.child != c && p.child in o.decisions && p.child !in o.generated ==>
      o.decisions[p.child].masked || CR.OptOutSource(o.decisions[p.child].source)
  {
    match Objection(o, c, masks[c])
    case Some(why) =>
      assert Objects(o, masks, c, why);
    case None =>
      forall p | p in AllPairs(o.fks) && p.parent == c && p.child != c && p.child in o.decisions && p.child !in o.generated
        ensures o.decisions[p.child].masked || CR.OptOutSource(o.decisions[p.child].source)
      {
        assert !Objects(o, masks, c, ChildInClear(p.child));
        assert MR.Copied(o.decisions, o.generated, p) ==> MR.CopiedChild(o.fks, o.decisions, o.generated, c, p.child);
      }
  }

  /** What the check says against a request is so, of the decisions it was given. */
  lemma EveryReasonIsSo(o: Classified, masks: map<ColumnRef, MaskRequest>, c: ColumnRef, why: Reason)
    requires Objects(o, masks, c, why)
    ensures c in masks && c in o.decisions
    ensures match why
      case NeverMasked => !o.decisions[c].masked && o.decisions[c].neverMasked
      case TypeRefuses => !o.decisions[c].masked && !o.decisions[c].neverMasked
      case AlreadyMaskedAs(k) =>
        && o.decisions[c].masked && masks[c].byFlag && k != masks[c].category
        && o.baseline.Some? && c in o.baseline.value && o.baseline.value[c].masked && o.baseline.value[c].category == k
      case CameOutAs(k) => o.decisions[c].masked && masks[c].byFlag && k == o.decisions[c].category != masks[c].category
      case ChildInClear(x) =>
        && o.decisions[c].masked && x != c && x !in o.generated && x in o.decisions
        && !o.decisions[x].masked && o.decisions[x].source !in {ByFlagUnmask, ByYmlUnmask}
        && exists p :: p in AllPairs(o.fks) && p.parent == c && p.child == x
  {
  }

  /** When the check blames the column's type, the type does refuse the category asked. */
  lemma TheReasonGivenIsTrue(e: CR.Env, prior: RP.Prior, d: Dec, o: Classified, c: ColumnRef, m: MaskRequest)
    requires CR.NoneOptedOut(d) && c in d && c in e.order && NoneUnlisted(e.rules.pack)
    requires c in prior.columns && prior.columns[c] == RP.ColumnConfig(Some(m.category), CONF_CERTAIN, None)
    requires MR.Decided(CR.Concluded(e, Some(prior), d), o.decisions) && c in o.decisions
    requires o.decisions[c].neverMasked == CR.Concluded(e, Some(prior), d)[c].neverMask
    requires Objection(o, c, m) == Some(TypeRefuses)
    ensures !Accepted(e.rules.pack, m.category, CR.Concluded(e, Some(prior), d)[c].col.family)
  {
    hide CR.Concluded, CR.NoneOptedOut;
    RequestsAreAnswered(e, prior, d, c, m.category);
  }

  /** A committed `mask:` that names the category none is read like any other. It raises
      nothing on a column without a category, and whatever the column's type the check
      blames the type. */
  lemma NoneIsBlamedOnTheType(pack: Accepts, w: Work, o: Classified, c: ColumnRef, byFlag: bool)
    requires w.category == CatNone && HasCategory(w) && !w.neverMask
    requires c in o.decisions
    requires var after := RP.ColumnVisit(pack, RP.ColumnConfig(Some(CatNone), CONF_CERTAIN, None), w).work;
      o.decisions[c].masked == after.Masked() && o.decisions[c].neverMasked == after.neverMask
    ensures Objection(o, c, MaskRequest(CatNone, byFlag)) == Some(TypeRefuses)
  {
  }
}
