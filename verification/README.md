# Asker derive macro: field resolution and select synthesis, in Dafny

This project models the core of the `Asker` derive macro of the `dialogue`
crate (`dialogue-core`). For every field of a record, the macro works out which
interactive prompt to generate: `Input`, `Password`, `Confirm`, `Select` or
`MultiSelect`. Then it emits a setter method that asks the operator through the
`dialoguer` terminal library and stores the answer in the field.

The model covers two parts of the macro:

- **Field resolution** (`dialoguer_list/mod.rs`, module `FieldResolver`).
  `get_dialogue` recognises the five prompt attributes. `is_some_type`
  classifies a type as `T` or `Option<T>`. `parse_field` takes the first
  prompt attribute and checks that it fits the field's type (a mismatch is an
  error); a field with no prompt attribute gets an inferred default kind. `generate_method` dispatches synthesis to the resolved kind.
- **Select** (`dialoguer_list/select.rs`, module `SelectPrompt`).
  `parse_field_attr` reads `prompt = "…"`, `default = n` and `options = […]`.
  `generate_method` builds the setter. It decides what is baked in and what
  becomes a parameter, the order of the builder chain, and whether a default
  step appears.

Supporting modules:

- `Syntax` holds stand-ins for `syn`: types, attributes, literals and errors.
  It also holds the option loop of `parse_nested_meta` and the assumed
  `get_inner_type`.
- `Codegen` holds the theme switch and the structure of an emitted method.
- `Scenarios` works concrete fields through resolution and synthesis.

Generated code is a datatype (`GenMethod`), not tokens. It records:

- the builder type and the method name;
- the runtime parameters;
- an optional static-options binding;
- the builder chain;
- the final assignment.

The select setter has the signature `pub fn name(&mut self, params…) -> &mut Self`.

Modelling choices:

- The theme is a parameter `ThemeCode` with values 0–2, not a global.
  `INITIAL_THEME` is 1, the switch's initial value.
- The input, password, confirm and multiselect parsers and generators live in
  files outside this model. They are fields of the `Parsers` and `Generators`
  records. Every property about resolution therefore holds whatever those
  parsers do.
- `utils::get_inner_type` is not part of this model. It is assumed to unwrap
  exactly one level: `outer<T>` gives `T`, and any other type gives nothing.
- `usize` is taken to be 64 bits wide.

Two behaviours of the code are worth stating directly:

- An attribute with no parenthesised list is an error for `select`: `#[select]`
  and `#[select = …]` fail in `parse_nested_meta`. Only `#[select()]` yields the
  spec with every field absent.
- The select setter always assigns `Some(options[res].clone().into())`, whatever
  the field's declared type. Whether this type-checks depends on the struct
  the entry point emits, which is not modelled. The model records the
  assignment as written (`AssignSome`).

## Model

| member | source | states |
|---|---|---|
| `Codegen.GetTheme` | dialogue-core/src/dialoguer_list/mod.rs:20-29 | code 0, and only code 0, gives no theme (plain `new()`); 1 gives the `dialoguer` colourful theme and 2 the re-exported one; `CodeOf` maps each result back to its code, so the three codes give distinct constructor forms |
| `FieldResolver.GetDialogue` | dialogue-core/src/dialoguer_list/mod.rs:41-58 | a kind is returned iff the attribute name is one of `input`, `password`, `confirm`, `select`, `multiselect`; the returned kind's tag is that name, and each tag yields its own kind |
| `FieldResolver.IsSomeType` | dialogue-core/src/dialoguer_list/mod.rs:61-78 | true iff the type is exactly the identifier `name` or `outer<name>`; any other wrapper, a non-path inner type, or generic arguments on `name` give false |
| `FieldResolver.ParseDirective` | dialogue-core/src/dialoguer_list/mod.rs:83-138 | a success always has the requested kind. Password on a type other than `String`/`Option<String>` and confirm on a type other than `bool`/`Option<bool>` fail with the fixed diagnostic on the field type, before any parsing. Select never fails on shape; its item type is `T` for `Option<T>` and the field type otherwise. Multiselect fails with "only support Vec type" unless the type is `Vec<T>`, and then its item type is `T`. Otherwise the kind's parser result is passed on unchanged |
| `FieldResolver.DefaultFor` | dialogue-core/src/dialoguer_list/mod.rs:162-174 | with no prompt attribute: `Vec<T>` gives multiselect over `T` with the default spec; otherwise `bool`/`Option<bool>` gives the default confirm; otherwise the default input |
| `FieldResolver.Scan` | dialogue-core/src/dialoguer_list/mod.rs:81-139 | the result is that of the first prompt attribute in declaration order, whatever attributes precede it |
| `FieldResolver.ParseField` | dialogue-core/src/dialoguer_list/mod.rs:80-139 | resolution of a field with a prompt attribute is decided by its first prompt attribute alone, through `ParseDirective` |
| `FieldResolver.Inferred` | dialogue-core/src/dialoguer_list/mod.rs:80-175 | resolution of a field without any prompt attribute always succeeds, with the kind `DefaultFor` infers from the field type |
| `FieldResolver.LaterAttributesIgnored` | dialogue-core/src/dialoguer_list/mod.rs:81-139 | replacing every attribute after the first prompt attribute leaves the result unchanged |
| `FieldResolver.UnrecognisedPrefixSkipped` | dialogue-core/src/dialoguer_list/mod.rs:81-82 | putting attributes that are not prompt attributes in front of a field's attributes leaves the result unchanged |
| `FieldResolver.ResolutionErrors` | dialogue-core/src/dialoguer_list/mod.rs:80-175 | a failed resolution has a prompt attribute, and its error depends on that first attribute's kind: input and select give their own parser's error; password, confirm and multiselect give their type-mismatch diagnostic on the field type or their own parser's error |
| `FieldResolver.FirstIndex` | dialogue-core/src/dialoguer_list/mod.rs:81-82 | when some attribute is a prompt attribute, the returned position is the first one |
| `FieldResolver.GenerateMethod` | dialogue-core/src/dialoguer_list/mod.rs:177-188 | input, password and confirm generators get no item type; select and multiselect get the resolved item type. A select never fails, is named after the field, and types its `options` parameter or local as a slice of the item type |
| `SelectPrompt.ApplyOption` | dialogue-core/src/dialoguer_list/select.rs:19-39 | one option succeeds iff it is `prompt` = string, `default` = integer within `usize`, or `options` = array. A success overwrites exactly the field its key names. An unknown key fails with "expected `prompt` , `default` or  `options`". A missing `=` and a literal of the wrong kind give their own errors |
| `SelectPrompt.ParseFieldAttr` | dialogue-core/src/dialoguer_list/select.rs:13-42 | an empty option list yields the spec with `prompt`, `default` and `options` all `None`; an attribute without a parenthesised list fails |
| `SelectPrompt.FoldOptions` | dialogue-core/src/dialoguer_list/select.rs:19-41 | reading an option list succeeds iff every option is valid. The result then overlays the start spec with the last value given for each key. Otherwise the result is the error of the first invalid option |
| `SelectPrompt.ParseFieldAttrSemantics` | dialogue-core/src/dialoguer_list/select.rs:13-42 | `parse_field_attr` on `#[select(…)]` succeeds iff every option is valid, and each field then holds the last value written for its key, or `None` |
| `SelectPrompt.FirstInvalidOptionReported` | dialogue-core/src/dialoguer_list/select.rs:19-40 | the diagnostic is the one the first invalid option produces on its own; earlier valid options and all later options do not change it |
| `SelectPrompt.LaterOptionWins` | dialogue-core/src/dialoguer_list/select.rs:20-38 | a key repeated at the end of the list overwrites every earlier value for it |
| `SelectPrompt.ParseUnparse` | dialogue-core/src/dialoguer_list/select.rs:13-42 | every spec whose default fits in `usize` is read back exactly from the option list that writes each present field once |
| `SelectPrompt.SynthParams` | dialogue-core/src/dialoguer_list/select.rs:68-95 | the method has a `prompt: &str` parameter iff no prompt was given and an `options: &[T]` parameter iff no options were given, prompt first; 0, 1 or 2 parameters, with distinct names |
| `SelectPrompt.SynthChain` | dialogue-core/src/dialoguer_list/select.rs:53-98 | the chain is ordered constructor, `with_prompt`, optional `default`, `items`, `interact`. The constructor is `with_theme` iff the theme code is not 0. The prompt is the literal or the `prompt` parameter. A `default(n)` step appears iff `default` is `Some(n)`. `items` always reads `options` |
| `SelectPrompt.SynthBinding` | dialogue-core/src/dialoguer_list/select.rs:87-91 | a local `options` binding typed by the item type exists iff static options were given, and it holds exactly those elements |
| `SelectPrompt.GenerateMethod` | dialogue-core/src/dialoguer_list/select.rs:44-108 | never fails. The method is named after the field and its parameters follow the prompt/options rule, `prompt: &str` first and `options: &[T]` last. The chain starts with `with_theme` for a nonzero theme code and `new()` otherwise, is ordered, and has a default step iff a default was given. Static options are bound to a local `options: &[T]` iff given. `items`, the lookup and the assignment to the field all use that one `options`, and every name used is bound exactly once |
| `SelectPrompt.SynthesisKeepsSpec` | dialogue-core/src/dialoguer_list/select.rs:62-98 | reading the baked-in prompt, default step and static options back out of the emitted method gives the spec it was generated from |
| `Scenarios.StaticSelect` | dialogue-core/src/dialoguer_list/select.rs:44-108 | `choice: String` with a literal prompt and options resolves to a select over `String`. Its method takes no parameters, binds the options locally, has no default step, and assigns to `choice`. Under the initial theme code the builder is made with the dialoguer colourful theme |
| `Scenarios.UnannotatedVec` | dialogue-core/src/dialoguer_list/mod.rs:162-167 | an unannotated `Vec<String>` field resolves to the default multiselect over `String` |
| `Scenarios.OptionalConfirm` | dialogue-core/src/dialoguer_list/mod.rs:99-104 | an `Option<bool>` field with a confirm attribute resolves to what the confirm parser reads |
| `Scenarios.PasswordOnInteger` | dialogue-core/src/dialoguer_list/mod.rs:87-97 | a password attribute on `i32` fails with the password type-mismatch diagnostic on `i32` |
| `Scenarios.MultiselectOnString` | dialogue-core/src/dialoguer_list/mod.rs:124-135 | a multiselect attribute on `String` fails with "multiselect only support Vec type" |

## Left out

- The proc-macro entry point and attribute registration (`lib.rs`) are compiler plumbing and are not modelled.
- The `static mut DIALOGUE_THEME` global is an explicit `ThemeCode` parameter. The record-level `theme` attribute that sets it is read in a file that is not part of this model.
- `Codegen.GetTheme`: the `unreachable!()` for codes outside 0–2 is excluded by the `ThemeCode` type rather than modelled as a panic.
- The `unreachable!()` arm of the kind match (`mod.rs:137`) cannot arise, because `Kind` has exactly five values.
- The second `multiselect` check after the kind match (`mod.rs:140-159`) is dead code and is not modelled. `GetDialogue` recognises the tag `multiselect`, so every such attribute has already returned inside the match.
- The input, password, confirm and multiselect parsers and generators are defined in files that are not part of this model. They appear only as the parameters `Parsers` and `Generators`. Their option grammars are therefore not checked.
- `GenMethod` has the shape of the select setter, including its `Some(options[res]…)` assignment. For the input, password, confirm and multiselect generators it is only an opaque result type; what their setters look like is not modelled.
- `FieldResolver.GenerateMethod`: for input, password, confirm and multiselect it only states which generator is called and with which item type, because those generators are not modelled.
- `utils::get_inner_type` is not part of this model. It is assumed to unwrap exactly one level of `outer<T>`.
- Token rendering by `quote!`, spans and hygiene are not modelled. Generated code is the structured `GenMethod`.
- The runtime behaviour of the emitted method is foreign and effectful and is not modelled. This covers the blocking `interact()`, the panic of `unwrap()`, the indexing of `options` by the library's answer, and the `.into()` conversion.
- `syn` literal parsing is abstracted. An integer literal is a `nat` checked against a 64-bit `usize`; suffixes and non-decimal forms are not modelled. Array elements are opaque text. The model has no negative literal: `default = -1`, which `syn` reads as an integer literal that `base10_parse::<usize>()` then rejects, is represented as a value of the wrong kind (`ExpectedLiteral`); both paths end in an error.
- `syn` parsing of an option value is a single literal. Trailing tokens after a literal, and the exact wording of `syn`'s own diagnostics, are represented by error constructors rather than strings.
