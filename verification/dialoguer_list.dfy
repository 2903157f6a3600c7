/** Resolution of one record field into exactly one of the five prompt kinds
    (`DialoguerList`), and dispatch of method synthesis for the resolved
    kind. The parsers and generators of the input, password, confirm and
    multiselect kinds are not part of this model: they are parameters, so
    every property below holds whatever they do. */
module FieldResolver {
  import opened Syntax
  import opened Codegen
  import SelectPrompt

  /** `input::Input`. */
  datatype InputSpec = InputSpec(prompt: Option<string>)

  /** `password::Password`. */
  datatype PasswordSpec = PasswordSpec(prompt: Option<string>)

  /** `confirm::Confirm`. */
  datatype ConfirmSpec = ConfirmSpec(prompt: Option<string>, default: Option<bool>)

  /** `multiselect::MultiSelect`. */
  datatype MultiSelectSpec = MultiSelectSpec(prompt: Option<string>, defaults: Option<seq<nat>>, options: Option<seq<string>>)

  /** The `Default` values used when a field carries no prompt attribute. */
  const INPUT_DEFAULT := InputSpec(None)
  const CONFIRM_DEFAULT := ConfirmSpec(None, None)
  const MULTISELECT_DEFAULT := MultiSelectSpec(None, None, None)

  /** The resolved prompt of one field. `Select` and `MultiSelect` carry the
      type of one selectable item. */
  datatype DialoguerList =
    | Input(input: InputSpec)
    | Password(password: PasswordSpec)
    | Confirm(confirm: ConfirmSpec)
    | Select(select: SelectPrompt.SelectSpec, itemTy: Ty)
    | MultiSelect(multiselect: MultiSelectSpec, itemTy: Ty)

  /** A record field: its name (absent for tuple fields), declared type and
      attributes in declaration order. */
  datatype Field = Field(name: Option<string>, ty: Ty, attrs: seq<Attr>)

  /** `ParseFieldAttr::parse_field_attr` of the four kinds modelled only at
      their interface. */
  datatype Parsers = Parsers(
    input: Attr -> Result<InputSpec>,
    password: Attr -> Result<PasswordSpec>,
    confirm: Attr -> Result<ConfirmSpec>,
    multiselect: Attr -> Result<MultiSelectSpec>)

  /** `ParseFieldAttr::generate_method` of the same four kinds. The theme
      they would read from the global switch is passed explicitly. */
  datatype Generators = Generators(
    input: (InputSpec, Option<string>, Option<Ty>, ThemeCode) -> Result<GenMethod>,
    password: (PasswordSpec, Option<string>, Option<Ty>, ThemeCode) -> Result<GenMethod>,
    confirm: (ConfirmSpec, Option<string>, Option<Ty>, ThemeCode) -> Result<GenMethod>,
    multiselect: (MultiSelectSpec, Option<string>, Option<Ty>, ThemeCode) -> Result<GenMethod>)

  /** The prompt kinds, the strings `get_dialogue` returns. */
  datatype Kind = InputKind | PasswordKind | ConfirmKind | SelectKind | MultiSelectKind

  /** The attribute name that requests each kind. */
  function TagOf(k: Kind): string {
    match k
    case InputKind => "input"
    case PasswordKind => "password"
    case ConfirmKind => "confirm"
    case SelectKind => "select"
    case MultiSelectKind => "multiselect"
  }

  const TAGS: set<string> := {"input", "password", "confirm", "select", "multiselect"}

  const PASSWORD_ERROR := "Password only support String or Option<String> type"
  const CONFIRM_ERROR := "Confirm only support bool or Option<bool> type"
  const MULTISELECT_ERROR := "multiselect only support Vec type"

  /** The kind each resolved prompt has. */
  function KindOf(d: DialoguerList): Kind {
    match d
    case Input(_) => InputKind
    case Password(_) => PasswordKind
    case Confirm(_) => ConfirmKind
    case Select(_, _) => SelectKind
    case MultiSelect(_, _) => MultiSelectKind
  }

  // ----- Type shapes -----

  /** `Vec<T>` for some `T`. */
  predicate IsVec(ty: Ty) {
    ty.Path? && ty.name == "Vec" && |ty.args| == 1
  }

  /** The bare type `name` or `Option<name>`. */
  predicate IsBareOrOption(ty: Ty, name: string) {
    ty == Ident(name) || ty == Path("Option", [Ident(name)])
  }

  // ----- Directive scanning -----

  /** `get_dialogue`: the prompt kind an attribute requests, by its name.
      Exactly the five tags are recognised, each as its own kind. */
  function GetDialogue(a: Attr): (r: Option<Kind>)
    ensures r.Some? <==> a.tag in TAGS
    ensures r.Some? ==> TagOf(r.value) == a.tag
    ensures forall k :: a.tag == TagOf(k) ==> r == Some(k)
  {
    if a.tag == "input" then Some(InputKind)
    else if a.tag == "password" then Some(PasswordKind)
    else if a.tag == "confirm" then Some(ConfirmKind)
    else if a.tag == "select" then Some(SelectKind)
    else if a.tag == "multiselect" then Some(MultiSelectKind)
    else None
  }

  /** No attribute of `attrs` is a prompt attribute. */
  predicate NoDirective(attrs: seq<Attr>) {
    forall j | 0 <= j < |attrs| :: GetDialogue(attrs[j]).None?
  }

  /** `attrs[i]` is the first prompt attribute of `attrs`. */
  predicate FirstDirectiveAt(attrs: seq<Attr>, i: int) {
    0 <= i < |attrs| && GetDialogue(attrs[i]).Some? && NoDirective(attrs[..i])
  }

  /** `is_some_type(ty, name, outer)`: whether `ty` is `name` itself or
      `outer<name>`. Any other wrapper, a wrapped non-path type, or generic
      arguments on `name` give false. */
  function IsSomeType(ty: Ty, name: string, outer: string): (r: bool)
    ensures r <==> ty == Ident(name) || ty == Path(outer, [Ident(name)])
  {
    var inner := GetInnerType(ty, outer);
    if inner.Some? && inner.value.Path? then inner.value == Ident(name)
    else if ty.Path? then ty == Ident(name)
    else false
  }

  // ----- Resolution -----

  /** One arm of the `match` in `parse_field`: the kind requested by
      attribute `a` on a field of type `ty`. Password and confirm check the
      type before parsing, so a type mismatch is reported even when the
      options are malformed; multiselect needs `Vec<T>` and takes `T` as item
      type; select accepts every type and unwraps one `Option`. A parser's
      error is passed on unchanged. */
  function ParseDirective(k: Kind, a: Attr, ty: Ty, ps: Parsers): (r: Result<DialoguerList>)
    ensures r.Ok? ==> KindOf(r.value) == k
    ensures k == InputKind ==> r == (if ps.input(a).Ok? then Ok(Input(ps.input(a).value)) else Err(ps.input(a).error))
    ensures k == PasswordKind && !IsBareOrOption(ty, "String") ==> r == Err(Spanned(ty, PASSWORD_ERROR))
    ensures k == PasswordKind && IsBareOrOption(ty, "String") ==>
              r == (if ps.password(a).Ok? then Ok(Password(ps.password(a).value)) else Err(ps.password(a).error))
    ensures k == ConfirmKind && !IsBareOrOption(ty, "bool") ==> r == Err(Spanned(ty, CONFIRM_ERROR))
    ensures k == ConfirmKind && IsBareOrOption(ty, "bool") ==>
              r == (if ps.confirm(a).Ok? then Ok(Confirm(ps.confirm(a).value)) else Err(ps.confirm(a).error))
    ensures k == SelectKind ==> (r.Ok? <==> SelectPrompt.ParseFieldAttr(a).Ok?)
    ensures k == SelectKind && r.Ok? ==> r.value.select == SelectPrompt.ParseFieldAttr(a).value
    ensures k == SelectKind && r.Ok? ==> ty == (if ty.Path? && ty.name == "Option" && |ty.args| == 1 then Path("Option", [r.value.itemTy]) else r.value.itemTy)
    ensures k == SelectKind && r.Err? ==> r.error == SelectPrompt.ParseFieldAttr(a).error
    ensures k == MultiSelectKind && !IsVec(ty) ==> r == Err(Spanned(ty, MULTISELECT_ERROR))
    ensures k == MultiSelectKind && IsVec(ty) ==>
              r == (if ps.multiselect(a).Ok? then Ok(MultiSelect(ps.multiselect(a).value, ty.args[0])) else Err(ps.multiselect(a).error))
  {
    match k
    case InputKind =>
      var s :- ps.input(a);
      Ok(Input(s))
    case PasswordKind =>
      if IsSomeType(ty, "String", "Option") then
        var s :- ps.password(a);
        Ok(Password(s))
      else
        Err(Spanned(ty, PASSWORD_ERROR))
    case ConfirmKind =>
      if IsSomeType(ty, "bool", "Option") then
        var s :- ps.confirm(a);
        Ok(Confirm(s))
      else
        Err(Spanned(ty, CONFIRM_ERROR))
    case SelectKind =>
      (match GetInnerType(ty, "Option")
       case Some(inner) =>
         var s :- SelectPrompt.ParseFieldAttr(a);
         Ok(Select(s, inner))
       case None =>
         var s :- SelectPrompt.ParseFieldAttr(a);
         Ok(Select(s, ty)))
    case MultiSelectKind =>
      (match GetInnerType(ty, "Vec")
       case Some(inner) =>
         var s :- ps.multiselect(a);
         Ok(MultiSelect(s, inner))
       case None =>
         Err(Spanned(ty, MULTISELECT_ERROR)))
  }

  /** The tail of `parse_field`, reached when no attribute is a prompt
      attribute: `Vec<T>` becomes a multiselect over `T`, otherwise `bool` or
      `Option<bool>` a confirm, otherwise an input, each with its default
      spec. */
  function DefaultFor(ty: Ty): (d: DialoguerList)
    ensures IsVec(ty) ==> d == MultiSelect(MULTISELECT_DEFAULT, ty.args[0])
    ensures !IsVec(ty) && IsBareOrOption(ty, "bool") ==> d == Confirm(CONFIRM_DEFAULT)
    ensures !IsVec(ty) && !IsBareOrOption(ty, "bool") ==> d == Input(INPUT_DEFAULT)
  {
    match GetInnerType(ty, "Vec")
    case Some(inner) => MultiSelect(MULTISELECT_DEFAULT, inner)
    case None =>
      if IsSomeType(ty, "bool", "Option") then Confirm(CONFIRM_DEFAULT) else Input(INPUT_DEFAULT)
  }

  /** The `for attr in &field.attrs` loop of `parse_field`: the first prompt
      attribute decides, attributes before it are skipped, attributes after
      it are never looked at; without one the default is inferred. */
  function Scan(ty: Ty, attrs: seq<Attr>, ps: Parsers): (r: Result<DialoguerList>)
    ensures forall i | FirstDirectiveAt(attrs, i) :: r == ParseDirective(GetDialogue(attrs[i]).value, attrs[i], ty, ps)
    decreases |attrs|
  {
    if |attrs| == 0 then Ok(DefaultFor(ty))
    else
      match GetDialogue(attrs[0])
      case Some(k) => ParseDirective(k, attrs[0], ty, ps)
      case None =>
        ScanStep(attrs);
        Scan(ty, attrs[1..], ps)
  }

  /** Skipping an unrecognised first attribute shifts the first prompt
      attribute down by one. */
  lemma ScanStep(attrs: seq<Attr>)
    requires |attrs| > 0 && GetDialogue(attrs[0]).None?
    ensures NoDirective(attrs[1..]) ==> NoDirective(attrs)
    ensures forall i | FirstDirectiveAt(attrs, i) :: FirstDirectiveAt(attrs[1..], i - 1)
  {
    forall i | FirstDirectiveAt(attrs, i) ensures FirstDirectiveAt(attrs[1..], i - 1) {
      assert i != 0;
      var before := attrs[1..][..i - 1];
      forall j | 0 <= j < i - 1 ensures GetDialogue(before[j]).None? {
        assert before[j] == attrs[..i][j + 1];
      }
    }
    if NoDirective(attrs[1..]) {
      forall j | 0 <= j < |attrs| ensures GetDialogue(attrs[j]).None? {
        if j > 0 { assert attrs[j] == attrs[1..][j - 1]; }
      }
    }
  }

  /** `DialoguerList::parse_field`: resolves a field into exactly one prompt
      kind or an error. The first prompt attribute in declaration order is
      the one that counts; with none, the kind is inferred from the type
      (`Inferred`). */
  function ParseField(f: Field, ps: Parsers): (r: Result<DialoguerList>)
    ensures forall i | FirstDirectiveAt(f.attrs, i) :: r == ParseDirective(GetDialogue(f.attrs[i]).value, f.attrs[i], f.ty, ps)
  {
    Scan(f.ty, f.attrs, ps)
  }

  /** A field without prompt attributes resolves to the kind inferred from
      its type, and this cannot fail. */
  lemma {:induction false} Inferred(f: Field, ps: Parsers)
    requires NoDirective(f.attrs)
    ensures ParseField(f, ps) == Ok(DefaultFor(f.ty))
    decreases |f.attrs|
  {
    if |f.attrs| > 0 {
      var rest := f.attrs[1..];
      assert GetDialogue(f.attrs[0]).None?;
      assert NoDirective(rest) by {
        forall j | 0 <= j < |rest| ensures GetDialogue(rest[j]).None? {
          assert rest[j] == f.attrs[j + 1];
        }
      }
      Inferred(f.(attrs := rest), ps);
    }
  }

  // ----- Synthesis dispatch -----

  /** `DialoguerList::generate_method`: hands each spec to its kind's
      generator, passing an item type only to select and multiselect. For a
      select whose options were left to the caller, the `options` parameter
      is a slice of the resolved item type. */
  function GenerateMethod(d: DialoguerList, fieldName: Option<string>, gens: Generators, theme: ThemeCode): (r: Result<GenMethod>)
    ensures d.Input? ==> r == gens.input(d.input, fieldName, None, theme)
    ensures d.Password? ==> r == gens.password(d.password, fieldName, None, theme)
    ensures d.Confirm? ==> r == gens.confirm(d.confirm, fieldName, None, theme)
    ensures d.MultiSelect? ==> r == gens.multiselect(d.multiselect, fieldName, Some(d.itemTy), theme)
    ensures d.Select? ==> r.Ok? && r.value.name == fieldName
    ensures d.Select? && d.select.options.None? ==> Param("options", SliceRef(Some(d.itemTy))) in r.value.params
    ensures d.Select? && d.select.options.Some? ==> r.value.binding == Some(Binding("options", Some(d.itemTy), d.select.options.value))
  {
    match d
    case Input(s) => gens.input(s, fieldName, None, theme)
    case Confirm(s) => gens.confirm(s, fieldName, None, theme)
    case Password(s) => gens.password(s, fieldName, None, theme)
    case Select(s, ty) => SelectPrompt.GenerateMethod(s, fieldName, Some(ty), theme)
    case MultiSelect(s, ty) => gens.multiselect(s, fieldName, Some(ty), theme)
  }

  // ----- Properties of resolution -----

  /** Attributes after the first prompt attribute are never examined:
      replacing them changes nothing. */
  lemma LaterAttributesIgnored(f: Field, i: int, post: seq<Attr>, ps: Parsers)
    requires FirstDirectiveAt(f.attrs, i)
    ensures ParseField(f.(attrs := f.attrs[..i + 1] + post), ps) == ParseField(f, ps)
  {
    var attrs' := f.attrs[..i + 1] + post;
    assert attrs'[i] == f.attrs[i];
    assert attrs'[..i] == f.attrs[..i];
    assert FirstDirectiveAt(attrs', i);
  }

  /** Attributes that are not prompt attributes, wherever they come from,
      can be put in front without changing the result. */
  lemma UnrecognisedPrefixSkipped(f: Field, pre: seq<Attr>, ps: Parsers)
    requires NoDirective(pre)
    ensures ParseField(f.(attrs := pre + f.attrs), ps) == ParseField(f, ps)
  {
    var attrs' := pre + f.attrs;
    if NoDirective(f.attrs) {
      forall j | 0 <= j < |attrs'| ensures GetDialogue(attrs'[j]).None? {
        if j < |pre| { assert attrs'[j] == pre[j]; } else { assert attrs'[j] == f.attrs[j - |pre|]; }
      }
      Inferred(f, ps);
      Inferred(f.(attrs := attrs'), ps);
    } else {
      var i := FirstIndex(f.attrs);
      assert attrs'[|pre| + i] == f.attrs[i];
      var before := attrs'[..|pre| + i];
      forall j | 0 <= j < |pre| + i ensures GetDialogue(before[j]).None? {
        if j < |pre| { assert before[j] == pre[j]; } else { assert before[j] == f.attrs[..i][j - |pre|]; }
      }
      assert FirstDirectiveAt(attrs', |pre| + i);
    }
  }

  /** The position of the first prompt attribute, when there is one. */
  function FirstIndex(attrs: seq<Attr>): (i: int)
    requires !NoDirective(attrs)
    ensures FirstDirectiveAt(attrs, i)
    decreases |attrs|
  {
    if GetDialogue(attrs[0]).Some? then 0
    else
      ScanStepBack(attrs);
      1 + FirstIndex(attrs[1..])
  }

  /** A prompt attribute after an unrecognised first one is found one
      position further on in the whole list. */
  lemma ScanStepBack(attrs: seq<Attr>)
    requires |attrs| > 0 && GetDialogue(attrs[0]).None? && !NoDirective(attrs)
    ensures !NoDirective(attrs[1..])
    ensures forall i | FirstDirectiveAt(attrs[1..], i) :: FirstDirectiveAt(attrs, i + 1)
  {
    var j :| 0 <= j < |attrs| && GetDialogue(attrs[j]).Some?;
    assert attrs[1..][j - 1] == attrs[j];
    forall i | FirstDirectiveAt(attrs[1..], i) ensures FirstDirectiveAt(attrs, i + 1) {
      var before := attrs[..i + 1];
      forall k | 0 <= k < i + 1 ensures GetDialogue(before[k]).None? {
        if k > 0 { assert before[k] == attrs[1..][..i][k - 1]; }
      }
    }
  }

  /** Resolution only fails because of the first prompt attribute, and only
      in the way its kind allows: input and select fail with their parser's
      error; password, confirm and multiselect fail with their type mismatch
      (pointing at the field's type) or with their parser's error. */
  lemma ResolutionErrors(f: Field, ps: Parsers)
    requires ParseField(f, ps).Err?
    ensures !NoDirective(f.attrs)
    ensures var a := f.attrs[FirstIndex(f.attrs)];
            var e := ParseField(f, ps).error;
            match GetDialogue(a).value
            case InputKind => ps.input(a).Err? && e == ps.input(a).error
            case PasswordKind => e == Spanned(f.ty, PASSWORD_ERROR) || (ps.password(a).Err? && e == ps.password(a).error)
            case ConfirmKind => e == Spanned(f.ty, CONFIRM_ERROR) || (ps.confirm(a).Err? && e == ps.confirm(a).error)
            case SelectKind => SelectPrompt.ParseFieldAttr(a).Err? && e == SelectPrompt.ParseFieldAttr(a).error
            case MultiSelectKind => e == Spanned(f.ty, MULTISELECT_ERROR) || (ps.multiselect(a).Err? && e == ps.multiselect(a).error)
  {
    if NoDirective(f.attrs) {
      Inferred(f, ps);
    }
    var i := FirstIndex(f.attrs);
    var k := GetDialogue(f.attrs[i]).value;
    assert ParseField(f, ps) == ParseDirective(k, f.attrs[i], f.ty, ps);
  }
}
