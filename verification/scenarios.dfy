/** Concrete fields worked through resolution and synthesis: a `String`
    field with a static select, an unannotated `Vec<String>`, an
    `Option<bool>` with a confirm attribute, a password attribute on `i32`
    and a multiselect attribute on `String`. Each holds for every choice of
    the parsers and generators this model leaves abstract and every theme. */
module Scenarios {
  import opened Syntax
  import opened Codegen
  import SelectPrompt
  import opened FieldResolver

  const STRING := Ident("String")

  /** `choice: String` with `#[select(prompt = "Pick", options = ["a", "b", "c"])]`
      becomes `choice(&mut self)`: no parameters, the options bound locally,
      no default step, and the chosen entry stored into `choice`. Under the
      initial theme the builder is made with the dialoguer colourful theme. */
  lemma StaticSelect(ps: Parsers, gens: Generators, theme: ThemeCode)
    ensures var xs := ["\"a\"", "\"b\"", "\"c\""];
            var a := Attr("select", List([Meta("prompt", Some(Str("Pick"))), Meta("options", Some(Array(xs)))]));
            var f := Field(Some("choice"), STRING, [a]);
            var d := ParseField(f, ps);
            && d == Ok(Select(SelectPrompt.SelectSpec(Some("Pick"), None, Some(xs)), STRING))
            && var m := GenerateMethod(d.value, f.name, gens, theme);
            && m.Ok?
            && m.value.params == []
            && m.value.binding == Some(Binding("options", Some(STRING), xs))
            && (forall i | 0 <= i < |m.value.steps| :: !m.value.steps[i].DefaultIndex?)
            && m.value.assign == AssignSome(Some("choice"), "options")
            && (theme == INITIAL_THEME ==> m.value.steps[0] == WithTheme(DialoguerColorful))
  {
    var xs := ["\"a\"", "\"b\"", "\"c\""];
    var ms := [Meta("prompt", Some(Str("Pick"))), Meta("options", Some(Array(xs)))];
    var a := Attr("select", List(ms));
    SelectPrompt.ParseFieldAttrSemantics("select", ms);
    assert ms[1..] == [ms[1]];
    assert SelectPrompt.LastWith(ms, "prompt") == Some(ms[0]);
    assert SelectPrompt.LastWith(ms, "options") == Some(ms[1]);
    assert FirstDirectiveAt([a], 0);
  }

  /** `tags: Vec<String>` without attributes resolves to a multiselect over
      `String` with the default spec. */
  lemma UnannotatedVec(ps: Parsers)
    ensures ParseField(Field(Some("tags"), Path("Vec", [STRING]), []), ps)
            == Ok(MultiSelect(MULTISELECT_DEFAULT, STRING))
  {
  }

  /** `ok: Option<bool>` with `#[confirm(default = true)]` resolves to
      whatever the confirm parser reads from that attribute. */
  lemma OptionalConfirm(ps: Parsers)
    ensures var a := Attr("confirm", List([Meta("default", Some(Bool(true)))]));
            var r := ParseField(Field(Some("ok"), Path("Option", [Ident("bool")]), [a]), ps);
            ps.confirm(a).Ok? ==> r == Ok(Confirm(ps.confirm(a).value))
  {
    var a := Attr("confirm", List([Meta("default", Some(Bool(true)))]));
    assert FirstDirectiveAt([a], 0);
  }

  /** `secret: i32` with `#[password]` fails with the type-mismatch
      diagnostic pointing at `i32`, whatever the password parser does. */
  lemma PasswordOnInteger(ps: Parsers)
    ensures var a := Attr("password", PathOnly);
            ParseField(Field(Some("secret"), Ident("i32"), [a]), ps)
            == Err(Spanned(Ident("i32"), PASSWORD_ERROR))
  {
    assert FirstDirectiveAt([Attr("password", PathOnly)], 0);
  }

  /** `name: String` with `#[multiselect(…)]` is rejected: only `Vec<T>`
      can be a multiselect. */
  lemma MultiselectOnString(ps: Parsers, args: AttrArgs)
    ensures ParseField(Field(Some("name"), STRING, [Attr("multiselect", args)]), ps)
            == Err(Spanned(STRING, MULTISELECT_ERROR))
  {
    assert FirstDirectiveAt([Attr("multiselect", args)], 0);
  }
}
