/**
 * `Command`: a command descriptor. Construction merges the class-wide defaults under the
 * given options and validates the result field by field; the validated fields are
 * read-only. `register` hands back a registered view of the command carrying the client,
 * and only a registered command serialises, to one payload entry per non-message type.
 *
 * Options are plain objects, here their own properties in order. The `Locale` enum is a
 * parameter (its members, name to value), and so is `BitField.resolve`.
 */
module Commands {
  import opened Wrappers
  import opened JsValues
  import OrderedMaps
  import NameRegex
  import LocaleVerification

  /** `CommandType`, with its numeric values 0 to 3. */
  datatype CommandType = MESSAGE | SLASH | CONTEXT_USER | CONTEXT_MESSAGE

  /** `z.enum(CommandType)`: only the enum's numeric values are accepted. */
  function TypeOf(v: Value): (r: Option<CommandType>)
    ensures r.Some? <==> v.Num? && 0 <= v.n <= 3
  {
    if v == Num(0) then Some(MESSAGE)
    else if v == Num(1) then Some(SLASH)
    else if v == Num(2) then Some(CONTEXT_USER)
    else if v == Num(3) then Some(CONTEXT_MESSAGE)
    else None
  }

  function TypeCode(t: CommandType): (n: int)
    ensures TypeOf(Num(n)) == Some(t)
  {
    match t
    case MESSAGE => 0
    case SLASH => 1
    case CONTEXT_USER => 2
    case CONTEXT_MESSAGE => 3
  }

  /** A localisation table after validation: locale value to text, in insertion order. */
  type Localizations = seq<(string, string)>

  /** The validated options: the fields a `Command` keeps. */
  datatype CommandData = CommandData(
    name: string,
    aliases: seq<string>,
    nameLocalizations: Option<Localizations>,
    description: string,
    descriptionLocalizations: Option<Localizations>,
    /** The `type` option. */
    types: seq<CommandType>,
    defaultMemberPermissions: Value,
    dmPermission: Option<bool>,
    nsfw: Option<bool>,
    guildId: Option<string>,
    fileName: Option<string>)

  /** `obj[key]` on a plain object: `undefined` when it has no such property. */
  function Prop(props: seq<(string, Value)>, key: string): (r: Value)
    ensures OrderedMaps.Has(props, key) ==> r == OrderedMaps.Get(props, key).value
    ensures !OrderedMaps.Has(props, key) ==> r == Undefined
  {
    match OrderedMaps.Get(props, key)
    case Some(v) => v
    case None => Undefined
  }

  /** `{ ...base, ...over }`: `over`'s properties set, in order, over a copy of `base`. */
  function Spread(base: seq<(string, Value)>, over: seq<(string, Value)>): seq<(string, Value)> {
    if |over| == 0 then base
    else OrderedMaps.Set(Spread(base, over[..|over| - 1]), over[|over| - 1].0, over[|over| - 1].1)
  }

  /** In the merge, a property the options give wins; any other comes from the defaults. */
  lemma {:induction false} SpreadProp(base: seq<(string, Value)>, over: seq<(string, Value)>, key: string)
    requires OrderedMaps.DistinctKeys(over)
    ensures Prop(Spread(base, over), key) == if OrderedMaps.Has(over, key) then Prop(over, key) else Prop(base, key)
  {
    if |over| > 0 {
      var n := |over| - 1;
      var init, e := over[..n], over[n];
      assert over == init + [e];
      assert OrderedMaps.DistinctKeys(init);
      assert !OrderedMaps.Has(init, e.0) by {
        forall j | 0 <= j < |init| ensures OrderedMaps.Keys(init)[j] != e.0 {
          assert init[j] == over[j];
        }
      }
      SpreadProp(base, init, key);
      OrderedMaps.SetGet(Spread(base, init), e.0, e.1, key);
      GetSnoc(init, e, key);
    }
  }

  /** Looking a key up in `es + [e]`, when `e`'s key is new. */
  lemma {:induction false} GetSnoc(es: seq<(string, Value)>, e: (string, Value), key: string)
    requires !OrderedMaps.Has(es, e.0)
    ensures OrderedMaps.Has(es + [e], key) <==> OrderedMaps.Has(es, key) || key == e.0
    ensures OrderedMaps.Get(es + [e], key) == if OrderedMaps.Has(es, key) then OrderedMaps.Get(es, key) else if key == e.0 then Some(e.1) else None
  {
    if |es| > 0 {
      assert (es + [e])[0] == es[0] && (es + [e])[1..] == es[1..] + [e];
      assert OrderedMaps.Keys(es) == [es[0].0] + OrderedMaps.Keys(es[1..]);
      assert OrderedMaps.Keys(es + [e]) == [es[0].0] + OrderedMaps.Keys(es[1..] + [e]);
      GetSnoc(es[1..], e, key);
    } else {
      assert OrderedMaps.Keys([e]) == [e.0];
    }
  }

  /** `z.string().max(max)`, followed by the name pattern when `named`. */
  predicate CheckString(v: Value, max: nat, named: bool) {
    v.Str? && |v.s| <= max && (named ==> NameRegex.Test(v.s))
  }

  /**
   * `z.record(localeVerification, <text schema>)` over a plain object: each key goes
   * through the locale check, each value through the text check; the record is rebuilt
   * under the checked keys.
   */
  function ParseRecord(locale: seq<(string, string)>, props: seq<(string, Value)>, max: nat, named: bool): (r: Option<Localizations>)
    ensures r.Some? ==> |r.value| <= |props|
  {
    if |props| == 0 then Some([])
    else
      var n := |props| - 1;
      match ParseRecord(locale, props[..n], max, named)
      case None => None
      case Some(init) =>
        match LocaleVerification.Verify(locale, Str(props[n].0))
        case Err(_) => None
        case Ok(key) =>
          if CheckString(props[n].1, max, named) then Some(OrderedMaps.Set(init, key, props[n].1.s)) else None
  }

  /** A record is accepted exactly when every key is a locale and every text passes its check. */
  lemma {:induction false} RecordAccepted(locale: seq<(string, string)>, props: seq<(string, Value)>, max: nat, named: bool)
    ensures ParseRecord(locale, props, max, named).Some? <==> forall i :: 0 <= i < |props| ==>
      LocaleVerification.Verify(locale, Str(props[i].0)).Ok? && CheckString(props[i].1, max, named)
  {
    if |props| > 0 {
      var n := |props| - 1;
      RecordAccepted(locale, props[..n], max, named);
      assert ParseRecord(locale, props, max, named).Some? <==>
        (ParseRecord(locale, props[..n], max, named).Some? &&
         LocaleVerification.Verify(locale, Str(props[n].0)).Ok? && CheckString(props[n].1, max, named));
      assert forall i :: 0 <= i < n ==> props[..n][i] == props[i];
    }
  }

  /** An optional localisation record: absent is fine, anything but a plain object is not. */
  function ParseLocalizations(locale: seq<(string, string)>, v: Value, max: nat, named: bool): Result<Option<Localizations>, ()> {
    match v
    case Undefined => Ok(None)
    case Obj(props) =>
      (match ParseRecord(locale, props, max, named)
       case Some(l) => Ok(Some(l))
       case None => Err(()))
    case _ => Err(())
  }

  /** `z.array(z.string())`. */
  function ParseStrings(v: Value): Option<seq<string>> {
    if v.Arr? && forall i :: 0 <= i < |v.items| ==> v.items[i].Str? then
      Some(seq(|v.items|, i requires 0 <= i < |v.items| && v.items[i].Str? => v.items[i].s))
    else None
  }

  /** `z.array(commandTypeSchema).nonempty()`. */
  function ParseTypes(v: Value): (r: Option<seq<CommandType>>)
    ensures r.Some? ==> |r.value| >= 1
  {
    if v.Arr? && |v.items| > 0 && forall i :: 0 <= i < |v.items| ==> TypeOf(v.items[i]).Some? then
      Some(seq(|v.items|, i requires 0 <= i < |v.items| && TypeOf(v.items[i]).Some? => TypeOf(v.items[i]).value))
    else None
  }

  /** `.optional()` around `z.boolean()`. */
  function ParseOptionalBool(v: Value): Result<Option<bool>, ()> {
    match v
    case Undefined => Ok(None)
    case Bool(b) => Ok(Some(b))
    case _ => Err(())
  }

  /** `.optional()` around `z.string()`. */
  function ParseOptionalString(v: Value): Result<Option<string>, ()> {
    match v
    case Undefined => Ok(None)
    case Str(s) => Ok(Some(s))
    case _ => Err(())
  }

  /** The schema's fields, in declaration order. */
  datatype Field =
    | Name | Aliases | NameLocalizations | Description | DescriptionLocalizations | Type
    | DefaultMemberPermissions | DmPermission | Nsfw | GuildId | FileName

  /** The property each field is read from. */
  function Key(f: Field): string {
    match f
    case Name => "name"
    case Aliases => "aliases"
    case NameLocalizations => "nameLocalizations"
    case Description => "description"
    case DescriptionLocalizations => "descriptionLocalizations"
    case Type => "type"
    case DefaultMemberPermissions => "defaultMemberPermissions"
    case DmPermission => "dmPermission"
    case Nsfw => "nsfw"
    case GuildId => "guildId"
    case FileName => "fileName"
  }

  /** The options' values for the schema's fields, `undefined` where absent. */
  datatype Raw = Raw(
    name: Value, aliases: Value, nameLocalizations: Value, description: Value,
    descriptionLocalizations: Value, types: Value, defaultMemberPermissions: Value,
    dmPermission: Value, nsfw: Value, guildId: Value, fileName: Value)

  function RawOf(props: seq<(string, Value)>): Raw {
    Raw(Prop(props, Key(Name)), Prop(props, Key(Aliases)), Prop(props, Key(NameLocalizations)),
      Prop(props, Key(Description)), Prop(props, Key(DescriptionLocalizations)), Prop(props, Key(Type)),
      Prop(props, Key(DefaultMemberPermissions)), Prop(props, Key(DmPermission)), Prop(props, Key(Nsfw)),
      Prop(props, Key(GuildId)), Prop(props, Key(FileName)))
  }

  /** `[f]` when `f`'s check failed. */
  function Issue(f: Field, ok: bool): seq<Field> {
    if ok then [] else [f]
  }

  /** `aliases`: absent means `[]`. */
  function ParseAliases(v: Value): Option<seq<string>> {
    if v == Undefined then Some([]) else ParseStrings(v)
  }

  /**
   * `validationSchema.parse(options)`: every field checked; on failure, the fields that
   * failed, in declaration order. Absent `aliases` become `[]`; unknown properties are
   * dropped.
   */
  function Parse(locale: seq<(string, string)>, props: seq<(string, Value)>): (r: Result<CommandData, seq<Field>>)
    ensures r.Ok? ==> |r.value.name| <= 32 && NameRegex.Test(r.value.name)
    ensures r.Ok? ==> |r.value.description| <= 100 && |r.value.types| >= 1
    ensures r.Err? ==> |r.error| >= 1
  {
    Validate(locale, RawOf(props))
  }

  /** The schema's checks on the field values. */
  function Validate(locale: seq<(string, string)>, raw: Raw): (r: Result<CommandData, seq<Field>>)
    ensures r.Ok? ==> |r.value.name| <= 32 && NameRegex.Test(r.value.name)
    ensures r.Ok? ==> |r.value.description| <= 100 && |r.value.types| >= 1
    ensures r.Ok? <==> (CheckString(raw.name, 32, true) && CheckString(raw.description, 100, false)
      && ParseTypes(raw.types).Some? && OptionalsValid(locale, raw))
    ensures r.Err? ==> |r.error| >= 1
  {
    var aliases := ParseAliases(raw.aliases);
    var nameLoc := ParseLocalizations(locale, raw.nameLocalizations, 32, true);
    var descLoc := ParseLocalizations(locale, raw.descriptionLocalizations, 100, false);
    var types := ParseTypes(raw.types);
    var dm := ParseOptionalBool(raw.dmPermission);
    var nsfw := ParseOptionalBool(raw.nsfw);
    var guild := ParseOptionalString(raw.guildId);
    var file := ParseOptionalString(raw.fileName);
    if CheckString(raw.name, 32, true) && CheckString(raw.description, 100, false) && types.Some?
      && OptionalsValid(locale, raw)
    then
      Ok(CommandData(raw.name.s, aliases.value, nameLoc.value, raw.description.s, descLoc.value, types.value,
        raw.defaultMemberPermissions, dm.value, nsfw.value, guild.value, file.value))
    else
      Err(Issue(Name, CheckString(raw.name, 32, true)) + Issue(Aliases, aliases.Some?)
        + Issue(NameLocalizations, nameLoc.Ok?) + Issue(Description, CheckString(raw.description, 100, false))
        + Issue(DescriptionLocalizations, descLoc.Ok?) + Issue(Type, types.Some?)
        + Issue(DmPermission, dm.Ok?) + Issue(Nsfw, nsfw.Ok?)
        + Issue(GuildId, guild.Ok?) + Issue(FileName, file.Ok?))
  }

  /** The optional fields are each absent or well-formed. */
  predicate OptionalsValid(locale: seq<(string, string)>, raw: Raw) {
    && ParseAliases(raw.aliases).Some?
    && ParseLocalizations(locale, raw.nameLocalizations, 32, true).Ok?
    && ParseLocalizations(locale, raw.descriptionLocalizations, 100, false).Ok?
    && ParseOptionalBool(raw.dmPermission).Ok? && ParseOptionalBool(raw.nsfw).Ok?
    && ParseOptionalString(raw.guildId).Ok? && ParseOptionalString(raw.fileName).Ok?
  }

  /** With only a valid name, description and type list given, construction succeeds and the rest take their defaults. */
  lemma MinimalAccepted(locale: seq<(string, string)>, name: string, description: string, types: seq<CommandType>)
    requires |name| <= 32 && NameRegex.Test(name) && |description| <= 100 && |types| >= 1
    ensures Validate(locale, Raw(Str(name), Undefined, Undefined, Str(description), Undefined, TypeList(types),
        Undefined, Undefined, Undefined, Undefined, Undefined))
      == Ok(CommandData(name, [], None, description, None, types, Undefined, None, None, None, None))
  {
    var v := TypeList(types);
    var t := ParseTypes(v).value;
    assert |t| == |types|;
    forall i | 0 <= i < |types| ensures t[i] == types[i] {
    }
    assert t == types;
  }

  /** A type list as the options give it: the types' numeric values. */
  function TypeList(types: seq<CommandType>): (v: Value)
    ensures v.Arr? && |v.items| == |types|
    ensures forall i :: 0 <= i < |types| ==> TypeOf(v.items[i]) == Some(types[i])
  {
    Arr(seq(|types|, i requires 0 <= i < |types| => Num(TypeCode(types[i]))))
  }

  /** Whatever else is given, a name that is too long or fails the pattern is refused, and reported first. */
  lemma BadNameRefused(locale: seq<(string, string)>, raw: Raw)
    requires !CheckString(raw.name, 32, true)
    ensures Validate(locale, raw).Err? && Validate(locale, raw).error[0] == Name
  {
  }

  /** Absent aliases come out as `[]`. */
  lemma AliasesDefault(locale: seq<(string, string)>, raw: Raw)
    requires raw.aliases == Undefined && Validate(locale, raw).Ok?
    ensures Validate(locale, raw).value.aliases == []
  {
  }

  const AllFields: seq<Field> := [
    Name, Aliases, NameLocalizations, Description, DescriptionLocalizations, Type,
    DefaultMemberPermissions, DmPermission, Nsfw, GuildId, FileName]

  /**
   * `validationSchema.partial().parse(defaults)`: each field given is checked as in the
   * full schema and kept (localisation records in their validated form); absent fields
   * stay absent; on failure, the fields that failed, in declaration order.
   */
  function ParsePartial(locale: seq<(string, string)>, props: seq<(string, Value)>): (r: Result<seq<(string, Value)>, seq<Field>>) {
    PartialFields(locale, props, AllFields)
  }

  /** The partial check over `fields`. */
  function PartialFields(locale: seq<(string, string)>, props: seq<(string, Value)>, fields: seq<Field>): (r: Result<seq<(string, Value)>, seq<Field>>)
    ensures r.Ok? ==> |r.value| <= |fields|
    ensures r.Ok? ==> forall i :: 0 <= i < |r.value| ==> exists f :: f in fields && r.value[i].0 == Key(f) && Given(props, f)
    ensures r.Ok? <==> forall f :: f in fields && Given(props, f) ==> CheckPartial(locale, f, Prop(props, Key(f))).Some?
    ensures r.Err? ==> forall f :: f in r.error ==> f in fields && Given(props, f)
  {
    if |fields| == 0 then Ok([])
    else
      var n := |fields| - 1;
      var init := PartialFields(locale, props, fields[..n]);
      var f := fields[n];
      assert forall g :: g in fields <==> g in fields[..n] || g == f;
      var one := PartialField(locale, props, f);
      match (init, one)
      case (Ok(a), Ok(b)) =>
        assert forall g :: g in fields[..n] ==> g in fields;
        KeysFromFields(props, fields[..n], f, fields, a, b);
        Ok(a + b)
      case (Err(a), Ok(_)) => Err(a)
      case (Ok(_), Err(b)) => Err(b)
      case (Err(a), Err(b)) => Err(a + b)
  }

  /** Every key kept by the check of `fields` is the key of one of them that was given. */
  lemma KeysFromFields(props: seq<(string, Value)>, before: seq<Field>, f: Field, fields: seq<Field>,
                       a: seq<(string, Value)>, b: seq<(string, Value)>)
    requires f in fields && forall g :: g in before ==> g in fields
    requires forall i :: 0 <= i < |a| ==> exists g :: g in before && a[i].0 == Key(g) && Given(props, g)
    requires forall i :: 0 <= i < |b| ==> b[i].0 == Key(f) && Given(props, f)
    ensures forall i :: 0 <= i < |a + b| ==> exists g :: g in fields && (a + b)[i].0 == Key(g) && Given(props, g)
  {
    forall i | 0 <= i < |a + b|
      ensures exists g :: g in fields && (a + b)[i].0 == Key(g) && Given(props, g)
    {
      if i < |a| {
        assert (a + b)[i] == a[i];
        var g :| g in before && a[i].0 == Key(g) && Given(props, g);
        assert g in fields && (a + b)[i].0 == Key(g) && Given(props, g);
      } else {
        assert (a + b)[i] == b[i - |a|];
        assert f in fields && (a + b)[i].0 == Key(f) && Given(props, f);
      }
    }
  }

  /** The partial check of one field: nothing when it is absent, its validated value when it passes. */
  function PartialField(locale: seq<(string, string)>, props: seq<(string, Value)>, f: Field): (r: Result<seq<(string, Value)>, seq<Field>>)
    ensures r.Ok? <==> (Given(props, f) ==> CheckPartial(locale, f, Prop(props, Key(f))).Some?)
    ensures r.Ok? ==> |r.value| <= 1 && forall i :: 0 <= i < |r.value| ==> r.value[i].0 == Key(f) && Given(props, f)
    ensures r.Err? ==> r.error == [f] && Given(props, f)
  {
    if !Given(props, f) then Ok([])
    else match CheckPartial(locale, f, Prop(props, Key(f)))
      case Some(v) => Ok([(Key(f), v)])
      case None => Err([f])
  }

  /** A field counts as given when its property holds something other than `undefined`. */
  predicate Given(props: seq<(string, Value)>, f: Field) {
    Prop(props, Key(f)) != Undefined
  }

  /** One given field checked as the full schema checks it, in its validated form. */
  function CheckPartial(locale: seq<(string, string)>, f: Field, v: Value): Option<Value> {
    match f
    case Name => if CheckString(v, 32, true) then Some(v) else None
    case Aliases => if ParseStrings(v).Some? then Some(v) else None
    case NameLocalizations =>
      (match ParseLocalizations(locale, v, 32, true) case Ok(Some(l)) => Some(LocalizationsValue(l)) case _ => None)
    case Description => if CheckString(v, 100, false) then Some(v) else None
    case DescriptionLocalizations =>
      (match ParseLocalizations(locale, v, 100, false) case Ok(Some(l)) => Some(LocalizationsValue(l)) case _ => None)
    case Type => if ParseTypes(v).Some? then Some(v) else None
    case DefaultMemberPermissions => Some(v)
    case DmPermission => if v.Bool? then Some(v) else None
    case Nsfw => if v.Bool? then Some(v) else None
    case GuildId => if v.Str? then Some(v) else None
    case FileName => if v.Str? then Some(v) else None
  }

  /** A validated localisation record, as a plain object again. */
  function LocalizationsValue(l: Localizations): (v: Value)
    ensures v.Obj? && |v.props| == |l|
  {
    Obj(seq(|l|, i requires 0 <= i < |l| => (l[i].0, Str(l[i].1))))
  }

  /** One entry of the `toJSON` payload. */
  datatype Entry =
    /** `{ name, type }`, for the context-menu types. */
    | Base(name: string, commandType: CommandType)
    /** A slash command's entry: the base plus its description, localisations and flags. */
    | Slash(
        name: string,
        nameLocalizations: Option<Localizations>,
        description: string,
        descriptionLocalizations: Option<Localizations>,
        dmPermission: Option<bool>,
        nsfw: Option<bool>,
        defaultMemberPermissions: Option<string>)

  function EntryType(e: Entry): CommandType {
    if e.Slash? then SLASH else e.commandType
  }

  /**
   * `default_member_permissions`: the resolved bit field as a string when permissions are
   * set and resolve; otherwise `null` (`None`).
   */
  function PermissionsField(perms: Value, resolve: Value -> Option<string>): (r: Option<string>)
    ensures !Truthy(perms) ==> r.None?
    ensures Truthy(perms) ==> r == resolve(perms)
  {
    if Truthy(perms) then resolve(perms) else None
  }

  /** The entry for one type. */
  function EntryFor(d: CommandData, t: CommandType, resolve: Value -> Option<string>): (e: Entry)
    ensures EntryType(e) == t && e.name == d.name
    ensures e.Slash? <==> t == SLASH
  {
    if t == SLASH then
      Slash(d.name, d.nameLocalizations, d.description, d.descriptionLocalizations, d.dmPermission, d.nsfw,
        PermissionsField(d.defaultMemberPermissions, resolve))
    else Base(d.name, t)
  }

  /** `type.filter(t => t !== MESSAGE).map(...)`. */
  function Entries(d: CommandData, types: seq<CommandType>, resolve: Value -> Option<string>): seq<Entry> {
    if |types| == 0 then []
    else
      var n := |types| - 1;
      Entries(d, types[..n], resolve) + (if types[n] == MESSAGE then [] else [EntryFor(d, types[n], resolve)])
  }

  /** The types that are not `MESSAGE`, in order. */
  function NonMessage(types: seq<CommandType>): (r: seq<CommandType>)
    ensures |r| <= |types| && MESSAGE !in r
    ensures forall t :: t in types && t != MESSAGE ==> t in r
  {
    if |types| == 0 then []
    else
      var n := |types| - 1;
      NonMessage(types[..n]) + (if types[n] == MESSAGE then [] else [types[n]])
  }

  /**
   * The payload has one entry per non-message type, in the type list's order, each named
   * after the command, and only the slash entry carries a description.
   */
  lemma {:induction false} EntriesMatchTypes(d: CommandData, types: seq<CommandType>, resolve: Value -> Option<string>)
    ensures |Entries(d, types, resolve)| == |NonMessage(types)|
    ensures forall i :: 0 <= i < |NonMessage(types)| ==>
      && EntryType(Entries(d, types, resolve)[i]) == NonMessage(types)[i]
      && Entries(d, types, resolve)[i].name == d.name
      && (Entries(d, types, resolve)[i].Slash? <==> NonMessage(types)[i] == SLASH)
  {
    if |types| > 0 {
      EntriesMatchTypes(d, types[..|types| - 1], resolve);
    }
  }

  /** A command, its fields fixed at construction. */
  class Command {
    const name: string
    const aliases: seq<string>
    const nameLocalizations: Option<Localizations>
    const description: string
    const descriptionLocalizations: Option<Localizations>
    /** `type`. */
    const types: seq<CommandType>
    const defaultMemberPermissions: Value
    const dmPermission: Option<bool>
    const nsfw: Option<bool>
    const guildId: Option<string>
    const fileName: Option<string>
    /** `_registered`. */
    var registered: bool
    /** `_client`: `undefined` until registered. */
    var client: Value

    function Data(): CommandData {
      CommandData(name, aliases, nameLocalizations, description, descriptionLocalizations, types,
        defaultMemberPermissions, dmPermission, nsfw, guildId, fileName)
    }

    /** The fields set from validated options; the command starts out unregistered. */
    constructor(d: CommandData)
      ensures Data() == d && !registered && client == Undefined
    {
      name, aliases, nameLocalizations, description := d.name, d.aliases, d.nameLocalizations, d.description;
      descriptionLocalizations, types, defaultMemberPermissions := d.descriptionLocalizations, d.types, d.defaultMemberPermissions;
      dmPermission, nsfw, guildId, fileName := d.dmPermission, d.nsfw, d.guildId, d.fileName;
      registered := false;
      client := Undefined;
    }

    /** The registered view `Object.create(proto)` gives: the same fields, registered, with the client. */
    constructor View(proto: Command, client: Value)
      ensures Data() == proto.Data() && registered && this.client == client
    {
      var d := proto.Data();
      name, aliases, nameLocalizations, description := d.name, d.aliases, d.nameLocalizations, d.description;
      descriptionLocalizations, types, defaultMemberPermissions := d.descriptionLocalizations, d.types, d.defaultMemberPermissions;
      dmPermission, nsfw, guildId, fileName := d.dmPermission, d.nsfw, d.guildId, d.fileName;
      registered := true;
      this.client := client;
    }

    /** `register(client)`: a new registered view; the receiver is left as it was. */
    method Register(client: Value) returns (r: Command)
      ensures fresh(r) && r.Data() == Data() && r.registered && r.client == client
    {
      r := new Command.View(this, client);
    }

    /** `toJSON()`: throws unless registered; otherwise one entry per non-message type. */
    function ToJSON(resolve: Value -> Option<string>): (r: Result<seq<Entry>, string>)
      reads this
      ensures r.Err? <==> !registered
      ensures r.Ok? ==> r.value == Entries(Data(), types, resolve)
    {
      if !registered then Err("Command must be registered before serialization")
      else Ok(Entries(Data(), types, resolve))
    }
  }

  /** The class-wide state of `Command`: its `defaults`, unset until `setDefaults`. */
  class CommandClass {
    var defaults: Option<seq<(string, Value)>>

    constructor()
      ensures defaults == None
    {
      defaults := None;
    }

    /** `Command.setDefaults(d)`: the validated partial options replace the defaults; invalid ones throw and change nothing. */
    method SetDefaults(locale: seq<(string, string)>, d: seq<(string, Value)>) returns (r: Result<(), seq<Field>>)
      modifies this
      ensures ParsePartial(locale, d).Ok? ==> defaults == Some(ParsePartial(locale, d).value) && r.Ok?
      ensures ParsePartial(locale, d).Err? ==> defaults == old(defaults) && r == Err(ParsePartial(locale, d).error)
    {
      match ParsePartial(locale, d)
      case Ok(v) =>
        defaults := Some(v);
        r := Ok(());
      case Err(e) =>
        r := Err(e);
    }

    /** `new Command(options)`: the defaults merged under the options, validated; invalid options throw. */
    method Construct(locale: seq<(string, string)>, options: seq<(string, Value)>) returns (r: Result<Command, seq<Field>>)
      ensures var parsed := Parse(locale, Spread(defaults.GetOr([]), options));
        && (r.Err? <==> parsed.Err?)
        && (r.Err? ==> r.error == parsed.error)
        && (r.Ok? ==> fresh(r.value) && r.value.Data() == parsed.value && !r.value.registered)
    {
      var merged := Spread(if defaults.Some? then defaults.value else [], options);
      match Parse(locale, merged)
      case Ok(d) =>
        var c := new Command(d);
        r := Ok(c);
      case Err(e) =>
        r := Err(e);
    }
  }
}
