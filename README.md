# dalvik-rs type system, modelled in Dafny

This project models the type module of dalvik-rs (`src/types/mod.rs`), a
reader for Android dex files. The module covers six things:

- **Type descriptors.** `Type::from_str` parses strings such as `I`,
  `Ljava/lang/String;` or `[[J` into a `Type`. `Display for Type` renders
  them back as `int`, a class name, or `long[2]`.
- **Shorty descriptors.** `ShortyDescriptor::from_str` parses the short
  prototype form, such as `VIL`. It uses two tag tables,
  `ShortyReturnType::from_char` and `ShortyFieldType::from_char`. The
  module also converts a full `Type`, or a parameter tag, into a return
  tag.
- **Access flags.** `AccessFlags` is a 32-bit set of modifiers.
  `Display for AccessFlags` prints its keywords in a fixed order,
  separated by spaces and trimmed.
- **Encoded values and annotations.** These are immutable records:
  `Value`, `Array`, `AnnotationElement`, `EncodedAnnotation`, `Annotation`,
  `AnnotationsDirectory` and the per-field, per-method and per-parameter
  holders.
- **Prototypes.** `Prototype` is the immutable record of a method
  prototype.
- **Classes.** `Class` is the immutable record of one class definition.

Files (one Dafny module each):

| file | module | contents |
|---|---|---|
| `base.dfy` | `Base` | Machine integer ranges, `Option`, the parse errors, `Result`. |
| `decimal.dfy` | `Decimal` | The decimal rendering of a dimension count (`{}` on a `u8`). |
| `types.dfy` | `DexTypes` | `Type`, its parser (a specification function `ParseType` and the looping method `TypeFromStr`), `TypeToString`, the format's descriptor grammar `Descriptor`. |
| `shorty.dfy` | `Shorty` | The shorty tags, the tag tables, the `From` conversions, the shorty parser (`ParseShorty` and the looping method `ShortyFromStr`). |
| `prototype.dfy` | `Prototypes` | `Prototype` and what it means for its shorty to agree with its full types. |
| `values.dfy` | `Values` | Encoded values, annotations, the annotations directory and its holders. |
| `flags.dfy` | `Flags` | The access-flag constants. The renderer, both as the method `Render`, which pushes onto a string one test at a time and then trims, and as the specification `Rendered`, which joins the keywords of the set flags. The properties of that rendering. |
| `classes.dfy` | `Classes` | `Class`. |

### Behaviour worth noting

- **Failing element parse.** When the characters after a `[` run fail to
  parse as an element, the error comes from the recursive parse through
  `?`, so `[X` fails with `InvalidTypeDescriptor("X")`, the element's text
  (src/types/mod.rs:63-70). The other failures carry the whole input
  (src/types/mod.rs:72-78). `DexTypes.ParseTypeOutcome` states both.
- **Declared-synchronized keyword.** Bit 0x20000 prints `synchronized`
  (src/types/mod.rs:619-621), the same word as bit 0x20, so with both set
  the word appears twice (`Flags.RenderBothSynchronized`).
- **No ordering checks.** `AnnotationsDirectory::new` stores its four lists
  as given and checks no ordering of their entries
  (src/types/mod.rs:377-395). `Values.DirectoryIsNotValidated` exhibits a
  directory with a duplicate, unsorted field index.

## Model

| member | source | states |
|---|---|---|
| `Decimal.NatToString` | src/types/mod.rs:99 | The `{}` form of a dimension count is non-empty, all digits, and has no leading zero. It is one digit exactly when the number is below 10. |
| `Decimal.NatToStringRoundTrip` | src/types/mod.rs:99 | Reading the rendered digits back gives the number. |
| `Decimal.NatToStringInjective` | src/types/mod.rs:99 | Distinct dimension counts render differently. |
| `Decimal.DigitChar` | src/types/mod.rs:99 | A digit below ten becomes the character with that digit value. |
| `DexTypes.LeadingBrackets` | src/types/mod.rs:58-62 | The length of the initial `[` run: every character before it is `[`, and the character at it (if any) is not. |
| `DexTypes.Brackets` | src/types/mod.rs:58-62 | `n` copies of `[`. |
| `DexTypes.TypeFromStr` | src/types/mod.rs:43-81 | The loop that counts `[` and then recurses returns exactly `ParseType(s)`. |
| `DexTypes.ParsePrimitive` | src/types/mod.rs:46-56 | A primitive tag yields its primitive, whatever characters follow it. |
| `DexTypes.ParseName` | src/types/mod.rs:57 | `L` + rest yields a name equal to rest, verbatim, with no `;` check. |
| `DexTypes.LeadingBracketsOf` | src/types/mod.rs:58-62 | `n` brackets before a non-`[` character form a run of length exactly `n`. |
| `DexTypes.ParseArray` | src/types/mod.rs:58-71 | `[`^n c rest (c not `[`) yields `Array(n, parse(c rest))`, or the element's error unchanged. |
| `DexTypes.ParseFailsOnWholeInput` | src/types/mod.rs:72-78 | The empty string, an all-`[` string and any other leading character fail with `InvalidTypeDescriptor` of the whole input. |
| `DexTypes.ParseWithoutBrackets` | src/types/mod.rs:46-78 | Without a leading `[`, the parse succeeds exactly when the first character is a tag. Otherwise the error carries the input. |
| `DexTypes.ParseAfterBrackets` | src/types/mod.rs:58-71 | After a `[` run that is followed by more text, the result is the array around the parse of that text. |
| `DexTypes.ParseTypeOutcome` | src/types/mod.rs:43-81 | The parse succeeds exactly when the first character after the `[` run is a tag. The error carries the element's text after a non-empty run with text following it, and the whole input otherwise. |
| `DexTypes.ParsedIsWellFormed` | src/types/mod.rs:58-71 | A parsed array's dimension count is the run length and its element is never an array. A result is an array exactly when the input starts with `[`. |
| `DexTypes.DescriptorShape` | src/types/mod.rs:43-81 | A well-formed type's descriptor is non-empty and starts with exactly `dimensions` brackets. |
| `DexTypes.ParseDescriptorRoundTrip` | src/types/mod.rs:43-81 | Parsing the descriptor of any well-formed type gives that type back. |
| `DexTypes.ElementReadsDescriptorPrefix` | src/types/mod.rs:46-57 | A parse without brackets reads the result's descriptor from the front of the input. A name reads all of the input. |
| `DexTypes.ParseReadsDescriptorPrefix` | src/types/mod.rs:43-81 | Any successful parse reads its result's descriptor from the front of the input. A name, or an array of names, reads all of the input. |
| `DexTypes.BracketsThenElement` | src/types/mod.rs:63-71 | An element read just after an `n`-long `[` run gives an array descriptor that is a prefix of the input. |
| `DexTypes.TypeToString` | src/types/mod.rs:83-101 | Under `Display for Type`, only a name that is the empty string renders as nothing, and an array's rendering ends with `]`. `RenderPrimitiveDescriptors`, `RenderName` and `RenderArray` give each case. |
| `DexTypes.RenderPrimitiveDescriptors` | src/types/mod.rs:86-94 | The nine primitives render as `void`, `boolean`, `byte`, `short`, `char`, `int`, `long`, `float`, `double`. |
| `DexTypes.RenderName` | src/types/mod.rs:95 | A parsed name renders as exactly the text after its `L`. |
| `DexTypes.RenderArray` | src/types/mod.rs:96-99 | An array renders as its element's rendering, then `[`, then digits that read back as the dimension count, then `]`. |
| `DexTypes.RenderParsedArray` | src/types/mod.rs:58-99 | Parsing `[`^n and an element, then rendering, gives the element's rendering followed by `[n]`. |
| `Shorty.ReturnTypeFromChar` | src/types/mod.rs:118-134 | It succeeds exactly on the ten return tags, and the tag's character is the input. Any other character fails with `InvalidShortyType` of that character. |
| `Shorty.FieldTypeFromChar` | src/types/mod.rs:182-197 | It succeeds exactly on the nine parameter tags (`V` excluded), and the tag's character is the input. Any other character fails with `InvalidShortyType` of that character. |
| `Shorty.ReturnTypeOfType` | src/types/mod.rs:136-151 | A type becomes `Reference` exactly when it is a name or an array. A primitive's tag character is its descriptor. |
| `Shorty.ReturnTypeOfField` | src/types/mod.rs:153-167 | A parameter tag converts to the return tag with the same character, and never to void. |
| `Shorty.ShortyFromStr` | src/types/mod.rs:206-224 | The loop that pushes one parameter tag per character and returns early on a bad one returns exactly `ParseShorty(s)`. |
| `Shorty.ParseFieldTypesOutcome` | src/types/mod.rs:215-218 | The parameter loop succeeds exactly when every character is a parameter tag, keeping length and order. Otherwise it fails with the first character that is not a parameter tag. |
| `Shorty.ParseShortyOutcome` | src/types/mod.rs:206-224 | Empty input fails with `InvalidShortyDescriptor` of the input, and a bad first character with `InvalidShortyType` of it. On success the return tag comes from the first character and there are \|s\|-1 parameter tags in input order. A later bad character (including `V`) fails with the first such character. |
| `Shorty.ShortyToString` | src/types/mod.rs:199-204 | The text of a descriptor has one character more than it has parameters. |
| `Shorty.ReturnTypeCharRoundTrip` | src/types/mod.rs:118-134 | The return-tag table inverts the return tag's character. |
| `Shorty.FieldTypeCharRoundTrip` | src/types/mod.rs:182-197 | The parameter-tag table inverts the parameter tag's character. |
| `Shorty.ShortyRoundTrip` | src/types/mod.rs:206-224 | Every shorty descriptor is recovered by parsing its text. |
| `Shorty.ShortyParseIsExact` | src/types/mod.rs:206-224 | A successful parse is the text of its result: the whole input is read and nothing is lost. |
| `Shorty.FieldTagsAreReturnTags` | src/types/mod.rs:153-197 | A character is a parameter tag exactly when it is a return tag other than `V`. Converting its parameter tag gives its return tag. |
| `Shorty.ReturnTypeOfParsedType` | src/types/mod.rs:136-151 | The return tag of a parsed type is the tag of the descriptor's first character, with `[` read as `L`. |
| `Prototypes.NewPrototype` | src/types/mod.rs:234-247 | `Prototype::new` stores the descriptor, return type and optional parameter list as given. |
| `Prototypes.NewDoesNotValidate` | src/types/mod.rs:234-247 | The constructor accepts a shorty that disagrees with the full return type. |
| `Prototypes.ShortyOfTypes` | src/types/mod.rs:136-151 | The shorty text determined by the full types has one character per parameter plus one. |
| `Prototypes.ReturnTypeCharInjective` | src/types/mod.rs:118-134 | Distinct return tags have distinct characters. |
| `Prototypes.ConsistentIffShortyMatches` | src/types/mod.rs:226-247 | The shorty agrees tag by tag with the full types exactly when its text equals the text the full types determine. |
| `Values.AnnotationKeepsParts` | src/types/mod.rs:303-364 | The element, encoded-annotation and annotation accessors return their constructor arguments, elements in order. |
| `Values.DirectoryKeepsLists` | src/types/mod.rs:375-416 | The directory's four lists come back exactly as given. |
| `Values.DirectoryIsNotValidated` | src/types/mod.rs:375-395 | A directory may hold duplicate and unsorted field indices. |
| `Values.HoldersKeepContents` | src/types/mod.rs:418-497 | Each holder's `new` keeps its index and its annotation list. |
| `Classes.ClassKeepsFields` | src/types/mod.rs:640-706 | `Class::new` and its eight accessors return every field as given. Absent optionals stay absent. |
| `Flags.Contains` | src/types/mod.rs:499-541 | `contains` holds exactly when every bit of the argument is already set, so that adding it changes nothing. Every flag check of the renderer uses it. |
| `Flags.TrimStart` | src/types/mod.rs:623 | The leading trim leaves a suffix of the input that does not start with whitespace, and everything it removed is whitespace. |
| `Flags.TrimEnd` | src/types/mod.rs:623 | The trailing trim leaves a prefix of the input that does not end with whitespace, and everything it removed is whitespace. |
| `Flags.Trim` | src/types/mod.rs:623 | `str::trim` leaves a string no longer than the input that neither starts nor ends with whitespace. |
| `Flags.TrimIsMiddle` | src/types/mod.rs:623 | What `str::trim` leaves is a contiguous run of the input with only whitespace before and after it. |
| `Flags.MiddleOf` | src/types/mod.rs:623 | A prefix, before whitespace, of a suffix, after whitespace, is a run of the input with only whitespace around it. |
| `Flags.PushStep` | src/types/mod.rs:545-617 | After one more spaced push, the string holds the next keyword prefix, each keyword followed by a space. |
| `Flags.Render` | src/types/mod.rs:543-625 | The seventeen spaced pushes, the unspaced `synchronized` push and the trim produce exactly `Rendered(flags)`. |
| `Flags.TestKeyword` | src/types/mod.rs:547-621 | Every keyword of the table is non-empty and starts and ends with a letter. |
| `Flags.KeywordsFromTable` | src/types/mod.rs:547-621 | Every word printed is the keyword of a table entry whose flag is set. |
| `Flags.KeywordsUpToAreKeywords` | src/types/mod.rs:547-621 | Every printed word starts and ends with a letter. |
| `Flags.JoinPair` | src/types/mod.rs:623 | Two words are joined around one space. |
| `Flags.JoinTriple` | src/types/mod.rs:623 | Three words are joined around two spaces. |
| `Flags.RenderedOfOne` | src/types/mod.rs:623 | One keyword renders as itself. |
| `Flags.RenderedOfPair` | src/types/mod.rs:623 | Two keywords render with one space between them. |
| `Flags.RenderedOfTriple` | src/types/mod.rs:623 | Three keywords render with single spaces between them. |
| `Flags.SpacedIsJoinAndSpace` | src/types/mod.rs:547-617 | Words each followed by a space are the joined words plus one trailing space. |
| `Flags.JoinEnds` | src/types/mod.rs:623 | Keywords join to the empty string only when there are none. Otherwise the result starts and ends with a letter. |
| `Flags.LetterNotWhitespace` | src/types/mod.rs:623 | No letter is whitespace. |
| `Flags.TrimKeepsEnds` | src/types/mod.rs:623 | The trim leaves a string with letters at both ends unchanged. |
| `Flags.TrimDropsSpace` | src/types/mod.rs:623 | The trim removes one trailing space after a letter. |
| `Flags.TrimSpaced` | src/types/mod.rs:623 | Trimming the spaced keywords gives the keywords joined by single spaces. |
| `Flags.TrimSpacedThenWord` | src/types/mod.rs:619-623 | Trimming the spaced keywords followed by one unspaced keyword gives all of them joined. |
| `Flags.JoinIsTrimmed` | src/types/mod.rs:623 | Joined keywords have nothing for the trim to remove. |
| `Flags.AllKeywordsSnoc` | src/types/mod.rs:619-620 | Appending the final keyword keeps every word a keyword. |
| `Flags.SpacedThenWord` | src/types/mod.rs:619-620 | The spaced words followed by an unspaced word are all the words joined. |
| `Flags.TrimOfPushed` | src/types/mod.rs:619-623 | The final push and the trim turn the seventeen spaced pushes into the rendering. |
| `Flags.LastTest` | src/types/mod.rs:619-621 | The last test adds `synchronized` exactly when the declared-synchronized bit is set. |
| `Flags.SynchronizedIsKeyword` | src/types/mod.rs:620 | `synchronized` starts and ends with a letter. |
| `Flags.TestBitInMask` | src/types/mod.rs:499-541 | Every rendered flag lies inside the mask of rendered bits `0x35FFF`. |
| `Flags.AndWithinMask` | src/types/mod.rs:499-541 | Masking to the rendered bits does not change a rendered bit. |
| `Flags.MaskedContains` | src/types/mod.rs:547-621 | Two flag sets that agree on the mask agree on every bit inside it. |
| `Flags.ContributionAgrees` | src/types/mod.rs:547-621 | Two flag sets that agree on a test's bits get the same contribution from that test. |
| `Flags.KeywordsAgree` | src/types/mod.rs:547-621 | Flag sets that agree on every rendered bit have the same keywords. |
| `Flags.RenderedBitsOnly` | src/types/mod.rs:543-625 | The rendering depends only on the rendered bits. |
| `Flags.UnrenderedBitsIgnored` | src/types/mod.rs:543-625 | Clearing every bit outside the rendered ones leaves the rendering unchanged. |
| `Flags.AnnotationNotRendered` | src/types/mod.rs:607-609 | Setting or clearing the annotation bit leaves the rendering unchanged. |
| `Flags.SetFlagShows` | src/types/mod.rs:547-621 | A rendered flag that is set contributes its keyword to the output. |
| `Flags.NoWordsBetween` | src/types/mod.rs:547-621 | Tests whose flags are clear add nothing. |
| `Flags.RenderedShape` | src/types/mod.rs:623 | The rendering is empty exactly when no rendered flag is set. Otherwise it starts and ends with a letter, so there is no edge space. |
| `Flags.KeywordsPublic` | src/types/mod.rs:715-722 | `ACC_PUBLIC` has the keywords `public`. |
| `Flags.RenderPublic` | src/types/mod.rs:715-722 | `ACC_PUBLIC` renders as `public`. |
| `Flags.KeywordsPublicDeclaredSynchronized` | src/types/mod.rs:724-731 | Public and declared-synchronized have the keywords `public`, `synchronized`. |
| `Flags.RenderPublicDeclaredSynchronized` | src/types/mod.rs:724-731 | Public and declared-synchronized render as `public synchronized`. |
| `Flags.KeywordsProtectedStaticAbstract` | src/types/mod.rs:733-741 | Protected, abstract and static have the keywords `protected`, `static`, `abstract`. |
| `Flags.RenderProtectedStaticAbstract` | src/types/mod.rs:733-741 | Protected, abstract and static render as `protected static abstract`, in table order. |
| `Flags.KeywordsPublicInterfaceAbstractAnnotation` | src/types/mod.rs:743-753 | Public, interface, abstract and annotation have the keywords `public`, `abstract`, `interface`. |
| `Flags.RenderPublicInterfaceAbstractAnnotation` | src/types/mod.rs:743-753 | Public, interface, abstract and annotation render as `public abstract interface`. |
| `Flags.KeywordsVolatile` | src/types/mod.rs:571-577 | Bit 0x40 has the keywords `volatile`, `bridge`. |
| `Flags.RenderVolatile` | src/types/mod.rs:571-577 | Bit 0x40 renders as `volatile bridge`. |
| `Flags.KeywordsTransient` | src/types/mod.rs:579-585 | Bit 0x80 has the keywords `transient`, `varargs`. |
| `Flags.RenderTransient` | src/types/mod.rs:579-585 | Bit 0x80 renders as `transient varargs`. |
| `Flags.KeywordsSynchronized` | src/types/mod.rs:567-569 | Bit 0x20 has the keywords `synchronized`. |
| `Flags.RenderSynchronized` | src/types/mod.rs:567-569 | Bit 0x20 renders as `synchronized`. |
| `Flags.KeywordsDeclaredSynchronized` | src/types/mod.rs:619-621 | Bit 0x20000 has the keywords `synchronized`. |
| `Flags.RenderDeclaredSynchronized` | src/types/mod.rs:619-621 | Bit 0x20000 renders as `synchronized`. |
| `Flags.KeywordsBothSynchronized` | src/types/mod.rs:567-621 | Bits 0x20 and 0x20000 together have the keywords `synchronized`, `synchronized`. |
| `Flags.RenderBothSynchronized` | src/types/mod.rs:567-621 | Bits 0x20 and 0x20000 together render as `synchronized synchronized`. |

## Left out

- `DexTypes.ParseType` and `DexTypes.TypeFromStr` require fewer than 256
  leading `[`. Past that the `u8` dimension counter overflows, and the
  model does not choose between a panic and a wrap-around.
- `Value::Float` and `Value::Double` carry their raw IEEE 754 bit patterns
  as `bv32` and `bv64`. Nothing here computes on the floating-point
  values.
- `ClassData` and the `read` submodule (the byte-stream reader and the
  class-body decoder) are not part of this model. `ClassData` is a type
  parameter of `Class`.
- The `bitflags!` machinery (union, intersection, iteration and the like)
  is not modelled. `AccessFlags` is a `bv32` with `contains`, the only
  operation the renderer uses.
- `str::trim` is modelled on the Unicode White_Space code points, which is
  the set `char::is_whitespace` tests. The renderer's keywords never
  contain whitespace.
- The `Deref` impls of `AnnotationElement` and `Annotation` are plain field
  projections. They appear as the datatype destructors.
- The generic `Into<Option<Box<[Type]>>>` argument of `Prototype::new` is
  taken already converted.
- The ordering of `static_values` relative to the class data's static
  fields is documentation only, with nothing in the code behind it. It is
  not modelled.
- `Debug` and `Clone` derives, `String::with_capacity`, and `Box`/`Vec`
  allocation are not modelled. None changes a result.
- The formatter's `fmt::Result` is not modelled. Rendering is a string
  result; write errors of the underlying formatter are not part of this
  model.
