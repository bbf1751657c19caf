# Datasul positional-file parser and layout generator, in Dafny

This project models two parts of a tool that reads Datasul integration files.

The first part is the positional-record parser, `parseFile`. A Datasul file is
text, one record per line. The first character of a line is the record type:
`1` is a header, `2` an item, `8` an item detail and `4` an installment. A
layout table lists the fields of each type. Each field has a name, a type text,
an optional decimal scale, a required flag and a 1-indexed inclusive column
range. The parser does four things:

- It echoes every line, with its number and type, in `rawLines`.
- It decodes each line that has a layout into a field object.
- It reports each required field that decodes to `null` in `errors`.
- It assembles the decoded records into a tree: headers hold items and
  installments, and items hold details. Orphan headers and placeholder items
  cover records that arrive before their owner.

The second part is the layout generator's `parseCsv`. It turns a layout table
written as comma-separated text into layout records. Column names are
canonicalised by `normalizeHeader`. A few header variants are copied to the
names the record reads. Numeric cells go through `parseNumberOrNull`, and the
required flag goes through `parseBool`.

Modules, one per file:

- `Optional` (optional.dfy): the `Option` type.
- `JsString` (js_string.dfy): the JavaScript string built-ins the code relies on.
  These are `trim`, `toLowerCase`, `replace` with a negated character class,
  `split` on one character, `split(/\r?\n/)` and `parseInt`.
- `JsObject` (js_object.dfy): a JavaScript object with string keys, as an
  insertion-ordered association list. It has property read and property
  assignment, and `Object.keys(o).find(k => k.startsWith(p))`.
- `FieldDecoding` (field_decoding.dfy): `safeSlice`, `parseNumberField`,
  `parseDateField`, `parseField` and `buildDescriptors`.
- `LineDecoding` (line_decoding.dfy): the inner `forEach` of `parseFile` over
  one line's descriptors. It builds the field object and collects the errors.
- `RecordAssembly` (record_assembly.dfy): `parseFile` itself. The line loop and
  the assembler are imperative methods with the cursors `currentHeader` and
  `currentItem`. They are proved against the fold `Assemble`, whose shape and
  conservation properties are lemmas.
- `HeaderNames` (header_names.dfy): `normalizeHeader`.
- `LayoutGeneration` (layout_generation.dfy): `parseBool`,
  `parseNumberOrNull` and `parseCsv`. The row loop, the per-column `for` loop
  and the alias patches are methods proved against functions.

The parser's layout table is a parameter, `map<char, seq<Descriptor>>`. The
table the code builds from its four JSON files is `LayoutTable` over four
layout tables given as parameters. The JSON contents are not part of this
model.

## Model

| member | source | states |
|---|---|---|
| FieldDecoding.SliceIndex | src/utils/parser.js:9-11 | A clamped slice bound never passes the length, and a bound already in range is kept. |
| FieldDecoding.SafeSlice | src/utils/parser.js:7-12 | The slice is never longer than the line. It is `line[max(0,s-1) .. min(len,e)]`, or empty when that range is empty. A negative end counts from the end of the line, as JavaScript's `slice` does. It is empty when the start is past the line or `s-1 >= e`. |
| FieldDecoding.ParseNumberField | src/utils/parser.js:14-20 | The result is `null` exactly when the slice has no digit and no `-`. Otherwise it is a decimal with the requested scale whose mantissa is the integer `parseInt` reads from the slice's digits and `-` signs, or NaN exactly when `parseInt` finds none. |
| FieldDecoding.NumberFieldIgnoresOtherChars | src/utils/parser.js:16 | Decimal decoding depends only on the slice's digits and minus signs. |
| FieldDecoding.NumberFieldOfPaddedDigits | src/utils/parser.js:14-20 | Digits with an optional leading `-`, padded with other characters, decode to their signed integer value over 10^scale. |
| FieldDecoding.SignedDigits | src/utils/parser.js:18 | `parseInt` of an optional `-` followed by digits is their signed value. |
| FieldDecoding.KeepPadded | src/utils/parser.js:16 | Stripping the non-number characters from a padded body gives back exactly the body. |
| FieldDecoding.DecimalExample | src/utils/parser.js:14-20 | "012" at scale 2 is the decimal 12/100, which is the real number 0.12. |
| FieldDecoding.ParseDateField | src/utils/parser.js:22-35 | The result is `null` exactly for the empty slice. A slice whose digit count is neither 8 nor 6 is returned unchanged. |
| FieldDecoding.DateFieldIsIso | src/utils/parser.js:24-33 | With 8 or 6 digits the result is a `yyyy-mm-dd` date text. |
| FieldDecoding.DateFieldOfFullDate | src/utils/parser.js:24-28 | `dd`, `mm` and `yyyy` digits, with any non-digit padding before, between and after them, give `yyyy-mm-dd`. |
| FieldDecoding.DateFieldOfShortDate | src/utils/parser.js:29-33 | `dd`, `mm` and `yy` digits, with any non-digit padding before, between and after them, give `20yy-mm-dd`. |
| FieldDecoding.DigitsOfDate | src/utils/parser.js:24 | Removing the non-digits from the date parts, their separators and their padding leaves day, month and year, in that order. |
| FieldDecoding.DateExamples | src/utils/parser.js:22-35 | "25122023" gives 2023-12-25, "251223" gives 2023-12-25, and "2512" is returned as it is. |
| FieldDecoding.ParseInteger | src/utils/parser.js:77-80 | The result is `null` exactly when the slice has no digit and no `-`. Otherwise it is the integer that `parseInt` reads from the slice's digits and `-` signs, or NaN exactly when `parseInt` finds none. |
| FieldDecoding.IntegerFieldOfPaddedDigits | src/utils/parser.js:77-80 | Digits with an optional leading `-`, padded with other characters, decode to their signed integer value. |
| FieldDecoding.ParseCharacter | src/utils/parser.js:82 | The result is `null` exactly for a blank slice. Otherwise it is the text `Trim` gives, which is never empty and has no whitespace at either end. |
| FieldDecoding.BooleanWord | src/utils/parser.js:73-76 | A trimmed slice is true exactly when its lower-case form is `s`, `sim`, `1` or `yes`. |
| FieldDecoding.BooleanExamples | src/utils/parser.js:73-76 | "S", " sim ", "1" and "YES" are true, and the empty slice is false. |
| FieldDecoding.ParseField | src/utils/parser.js:64-83 | The type tests run in the code's order: decimal, then ddmmy/date, then sim/não/nao, then inteiro, then character. Each type yields only its own kinds of value. A decimal uses `decimais`, or 2 when that is absent. A boolean is never `null`. No type yields the empty string. `null` occurs exactly under each type's own condition. |
| FieldDecoding.NonZero | src/utils/parser.js:48-51 | JavaScript's `x \|\| null` on a number: the result is absent exactly when x is absent or 0, and otherwise it is x. |
| FieldDecoding.BuildDescriptors | src/utils/parser.js:42-55 | There are no more descriptors than rows. Each descriptor has a non-empty name and no zero scale or offset. A descriptor is in the list exactly when it describes a row that has a name. |
| FieldDecoding.BuildDescriptorsConcat | src/utils/parser.js:43-54 | The map and filter keep the row order: descriptors of a concatenation are the concatenation of descriptors. |
| FieldDecoding.ScaleOfDescribedRow | src/utils/parser.js:48-67 | A layout `decimais` of 0 or absent decodes with scale 2. Any other `decimais` is used as the scale. |
| LineDecoding.LastActive | src/utils/parser.js:104-107 | Finds the last descriptor with both offsets and the given name, or reports that none exists. |
| LineDecoding.DecodedFieldsGet | src/utils/parser.js:102-107 | A key of a line's field object holds the decoded slice of the last complete descriptor with that name. A name without such a descriptor is not a key. |
| LineDecoding.DecodedFieldsKeys | src/utils/parser.js:102-107 | The keys are exactly the names of the descriptors with both offsets, each once. A descriptor with a falsy start or end adds no key. |
| LineDecoding.DecodedFieldsInOrder | src/utils/parser.js:102-107 | With distinct names, the field object lists one entry per complete descriptor, in layout order. |
| LineDecoding.LineErrorsIff | src/utils/parser.js:108-110 | An error is in a line's list exactly when some required, complete descriptor decoded to `null`. The error carries the line number, that descriptor's name and the fixed message. |
| LineDecoding.LineErrorsBound | src/utils/parser.js:103-111 | A line reports at most one error per descriptor. |
| LineDecoding.LineErrorsCount | src/utils/parser.js:103-111 | The number of a line's errors is exactly the number of its descriptors that report: required, complete and decoding to `null`. |
| LineDecoding.LineErrorsConcat | src/utils/parser.js:103-111 | A line's errors come in layout order: the errors of two descriptor lists in a row are the first list's errors followed by the second's. |
| LineDecoding.DecodeLine | src/utils/parser.js:102-111 | The loop builds exactly the line's field object. It appends exactly the line's errors to the errors so far, and an error does not stop the later fields. |
| RecordAssembly.Step | src/utils/parser.js:113-145 | One record keeps the cursor invariant: an item is open exactly when the last header has items. The result becomes non-empty exactly when it already was, or when the record is a header, item or installment. |
| RecordAssembly.ParseFile | src/utils/parser.js:85-152 | The method's output equals the specification `Parse` of the text. |
| RecordAssembly.ProcessLines | src/utils/parser.js:91-151 | The line loop produces exactly the assembled headers, the raw lines and the errors of the lines. |
| RecordAssembly.AddRecord | src/utils/parser.js:113-145 | The update in place through the cursors gives the new state of one step, with the cursors again at the last header and its last item. |
| RecordAssembly.AddItem | src/utils/parser.js:118-128 | A type 2 line pushes onto the current header, or onto a new orphan header. The item becomes the current item. |
| RecordAssembly.AddDetail | src/utils/parser.js:129-136 | A type 8 line pushes onto the current item. Failing that, it goes onto a new placeholder item of the current header. With no header it is dropped. |
| RecordAssembly.AddInstallment | src/utils/parser.js:137-144 | A type 4 line pushes onto the current header, or onto a new orphan header. The current item is unchanged. |
| RecordAssembly.StepShaped | src/utils/parser.js:113-145 | One step keeps the tree's shape. |
| RecordAssembly.AssembleShaped | src/utils/parser.js:113-145 | Only the first header can be an orphan, and an orphan holds an item or an installment. Only the first item of a header can be a placeholder, and a placeholder holds a detail. |
| RecordAssembly.AssembleNonEmpty | src/utils/parser.js:113-145 | The result is non-empty exactly when some record is a header, item or installment. |
| RecordAssembly.StepConserves | src/utils/parser.js:113-145 | One step adds its record to exactly one of the four flattened lists. A detail with no header is the exception: it adds nothing. |
| RecordAssembly.AssembleConserves | src/utils/parser.js:113-145 | The flattened headers, items and installments are exactly the type 1, 2 and 4 records, in order. The flattened details are exactly the type 8 records that some header, item or installment precedes. |
| RecordAssembly.AssembleIgnoresUnknown | src/utils/parser.js:146-148 | Records of any other type leave the assembly unchanged. |
| RecordAssembly.TableLayoutFor | src/utils/parser.js:57-62 | With the parser's table, a line is decoded exactly when it starts with 1, 2, 4 or 8. |
| RecordAssembly.UnknownLineIgnored | src/utils/parser.js:146-148 | A line without a layout adds its raw line and nothing else: no record and no error. |
| RecordAssembly.ErrorsIff | src/utils/parser.js:94-111 | An error is in the output exactly when it is an error of some line with a layout, under that line's number. |
| RecordAssembly.ErrorsOrdered | src/utils/parser.js:109 | Every error's line number is a line of the input, and the errors are in line order. |
| RecordAssembly.RawLinesShape | src/utils/parser.js:86-97 | There is one raw line per piece of the line split, numbered from 1. No raw line holds a line break. The type is the first character, or empty exactly for an empty line. |
| RecordAssembly.RawLinesRoundTrip | src/utils/parser.js:86-97 | For a text without carriage returns, joining the raw lines with `\n` gives back the text. |
| RecordAssembly.RawLinesCrLf | src/utils/parser.js:86-97 | For lines without `\n` joined with `\r\n`, the raw lines' texts are exactly those lines. |
| RecordAssembly.EmptyText | src/utils/parser.js:86-97 | The empty text gives one raw line, empty and with an empty type, and no record and no error. |
| RecordAssembly.NestingExample | src/utils/parser.js:113-139 | Lines 1, 2, 8, 4 give one header holding one item with one detail, and one installment. |
| RecordAssembly.OrphanExample | src/utils/parser.js:123-144 | Lines 8, 4, 2, 8 drop the first detail. An orphan header holds the installment and the item, and the item holds the second detail. |
| RecordAssembly.PlaceholderExample | src/utils/parser.js:129-136 | A detail after a header with no item goes into a placeholder item. A later item follows the placeholder. |
| HeaderNames.NormalizeHeaderNormalized | scripts/generate-layouts.js:9-14 | Every output has only `a-z`, `0-9` and `_`, never `_` at either end, and never two `_` in a row. |
| HeaderNames.CollapseRunsShape | scripts/generate-layouts.js:12 | Replacing the runs leaves only name characters, with no two `_` in a row. The result starts with `_` exactly when the input starts outside `a-z0-9`. |
| HeaderNames.NormalizedIsFixed | scripts/generate-layouts.js:9-14 | A canonical name normalizes to itself. |
| HeaderNames.NormalizeHeaderIdempotent | scripts/generate-layouts.js:9-14 | Normalizing twice is normalizing once. |
| HeaderNames.NormalizeHeaderKeepsAlnum | scripts/generate-layouts.js:9-14 | Normalizing keeps exactly the lower-cased name's letters and digits, in order. |
| HeaderNames.NormalizeHeaderEmpty | scripts/generate-layouts.js:9-14 | The output is empty exactly when the lower-cased name has no letter or digit. |
| HeaderNames.NormalizeHeaderExample | scripts/generate-layouts.js:9-14 | "Término" normalizes to "t_rmino". |
| LayoutGeneration.ParseBoolIff | scripts/generate-layouts.js:16-19 | A cell is true exactly when "sim" occurs in it in any letter case. A missing or empty cell is false. |
| LayoutGeneration.ContainsIff | scripts/generate-layouts.js:18 | The pattern test holds exactly when the pattern occurs at some position. |
| LayoutGeneration.NumberOfNumeral | scripts/generate-layouts.js:23 | `Number` of a decimal numeral is its exact value, negated after a `-`. |
| LayoutGeneration.NumberOfIsNumeral | scripts/generate-layouts.js:23 | Every non-empty string that `Number` does not map to NaN is such a numeral. |
| LayoutGeneration.NumberField | scripts/generate-layouts.js:58-62 | `parseNumberOrNull(x) \|\| null`: a present result is never zero and is what `parseNumberOrNull` gives, and a non-zero `parseNumberOrNull` result is always kept. |
| LayoutGeneration.NoDigitNoNumber | scripts/generate-layouts.js:21-25 | A cell without a digit gives `null`. |
| LayoutGeneration.NumberFieldOfNumeral | scripts/generate-layouts.js:21-25 | A numeral padded with other characters gives its value, or `null` when that value is 0. |
| LayoutGeneration.SizeExample | scripts/generate-layouts.js:21-25 | " 12 " gives 12. |
| LayoutGeneration.FractionExample | scripts/generate-layouts.js:21-25 | "-0.5" gives -5/10. |
| LayoutGeneration.ZeroExample | scripts/generate-layouts.js:21-25 | "0" gives `null` after `\|\| null`. |
| LayoutGeneration.Cells | scripts/generate-layouts.js:34 | A line gives one more cell than it has commas. |
| LayoutGeneration.CellsTrimmed | scripts/generate-layouts.js:34 | Each cell is a piece of the comma split, trimmed, with no whitespace left at either end. |
| LayoutGeneration.NamesNormalized | scripts/generate-layouts.js:37 | Every key the row loop assigns is a canonical name. |
| LayoutGeneration.LastIndex | scripts/generate-layouts.js:36-40 | Finds the last column with a given name, or reports that none exists. |
| LayoutGeneration.RowObjectGet | scripts/generate-layouts.js:36-40 | A key of a row object holds the cell of the last column with that name, or `''` when the row is short. A name of no column is not a key. |
| LayoutGeneration.RowObjectKeys | scripts/generate-layouts.js:36-40 | No key of a row object occurs twice. With canonical names, every key is canonical. |
| LayoutGeneration.WithAliasesGet | scripts/generate-layouts.js:43-49 | The header variants change only `descricao`, `tamanho`, `inicio`, `fim` and `obrigatorio`. |
| LayoutGeneration.InertAlias | scripts/generate-layouts.js:43-49 | Copying from a non-canonical key of an object with canonical keys changes nothing. |
| LayoutGeneration.AccentedAliasesInert | scripts/generate-layouts.js:43-49 | On a row object, the two accented variants `descrição` and `término` never apply. Only the other five copies act. |
| LayoutGeneration.RecordGet | scripts/generate-layouts.js:53-64 | A field no variant targets is read straight from its column. |
| LayoutGeneration.RecordCampoTipo | scripts/generate-layouts.js:56-58 | `campo` and `tipo` are their column's cell, or `''`. `decimais` is the number of its column's cell. |
| LayoutGeneration.RecordSeq | scripts/generate-layouts.js:54 | `seq` is the number of the `seq` column. The `seq_`, `seq.` and `seq,` fallbacks are never present. |
| LayoutGeneration.RecordAliases | scripts/generate-layouts.js:43-62 | On a row, `descricao` is the `descri_o` cell if set, else the `descricao` cell, else `''`. `tamanho`, `inicio` and `fim` are the numbers of the first set cell of `tam`/`tamanho`, `in_cio`/`inicio` and `t_rmino`/`fim`/`termino`. |
| LayoutGeneration.RecordObrigatorio | scripts/generate-layouts.js:51-59 | `obrigatorio` is `parseBool` of the first key that starts with `obrig`. With no such key it is false. |
| LayoutGeneration.NonBlank | scripts/generate-layouts.js:29 | The filter keeps no more lines than it was given, and none that is blank. |
| LayoutGeneration.NonBlankIff | scripts/generate-layouts.js:29 | A line survives the filter exactly when it is a line of the text and not blank. |
| LayoutGeneration.MapRowsAt | scripts/generate-layouts.js:33 | Element i of `rows.map(f)` is `f` of row i. |
| LayoutGeneration.LayoutRecordsShape | scripts/generate-layouts.js:29-33 | No non-blank line gives no record. Otherwise there is one record per non-blank line after the first, each built from that line under the first line's column names. |
| LayoutGeneration.ParseCsv | scripts/generate-layouts.js:27-67 | The method's output equals the specification `LayoutRecords` of the text. |
| LayoutGeneration.RecordRows | scripts/generate-layouts.js:33-66 | The row loop gives exactly one record per row, in order. |
| LayoutGeneration.MakeRecord | scripts/generate-layouts.js:34-65 | The callback gives the record of the line's trimmed cells. |
| LayoutGeneration.BuildRow | scripts/generate-layouts.js:35-40 | The `for` loop builds exactly the row object of the normalized header. |
| LayoutGeneration.AssignColumns | scripts/generate-layouts.js:36-40 | One assignment per column, in order, gives the row object. |
| LayoutGeneration.CopyVariants | scripts/generate-layouts.js:43-49 | The seven patches, in the code's order, give the aliased object. |
| LayoutGeneration.CopyIfSet | scripts/generate-layouts.js:43-49 | `if (obj[from]) obj[to] = obj[from]` copies a non-empty cell to its target and otherwise leaves the object alone. |
| JsString.Trim | src/utils/parser.js:82 | The trimmed text is empty exactly for a blank text, and otherwise has no whitespace at either end. |
| JsString.TrimStripsEdges | src/utils/parser.js:82 | The trimmed text is a piece of the text with only whitespace before it and only whitespace after it. |
| JsString.TrimUnique | src/utils/parser.js:82 | Conversely, any such piece that neither starts nor ends with whitespace is the trimmed text. |
| JsString.TrimIdempotent | src/utils/parser.js:82 | Trimming twice is trimming once. |
| JsString.Split | scripts/generate-layouts.js:34 | One more piece than separators. No piece holds the separator, and joining the pieces gives back the text. |
| JsString.SplitLines | src/utils/parser.js:86 | One line per `\n`, plus one, and no line holds a `\n`. |
| JsString.SplitLinesWithoutCR | src/utils/parser.js:86 | Without carriage returns, the line split is the split at `\n`, and joining restores the text. |
| JsString.SplitLinesCrLf | src/utils/parser.js:86 | Lines without `\n`, joined with `\r\n`, split back into exactly those lines, even lines that end in `\r`. |
| JsString.ParseIntNaN | src/utils/parser.js:18 | `parseInt` is NaN exactly when no digit follows the optional sign. |
| JsString.ParseIntOfDigits | src/utils/parser.js:18 | `parseInt` reads exactly the leading digits. |
| JsObject.Get | src/utils/parser.js:107 | A property read finds a value exactly for a key of the object. |
| JsObject.Put | src/utils/parser.js:107 | Assignment sets the key and leaves every other key alone. A new key goes at the end, and an existing key keeps its place. |
| JsObject.FirstKeyWithPrefix | scripts/generate-layouts.js:51 | The key found starts with the prefix, and no earlier key in key order does. None is found exactly when no key starts with it. |

## Left out

- The user interface, file reading, text decoding, console output, the `fs`
  calls of the generator and JSON serialisation. They are I/O.
- Floating point. A decimal field is the exact pair (mantissa, scale), meaning
  mantissa / 10^scale, and the generator's numbers are the same kind of exact
  decimal. The rounding of `n / Math.pow(10, decimals)` and of `Number` is not
  modelled.
- JsString.ParseInt: integers are unbounded, so the loss of precision above
  2^53 is not modelled.
- LayoutGeneration.NumberOf models `Number` only on strings made of digits,
  `.` and `-`. Those are the only strings it can receive after the
  generator's filter, so exponents, hexadecimal and `Infinity` cannot occur.
- JsString.LowerChar folds the ASCII capitals and the Latin-1 capitals U+00C0
  to U+00DE, except U+00D7, and no other character. The file picker's
  'latin1' decoding is windows-1252, so Š, Œ, Ž, Ÿ and € can reach the parser;
  `toLowerCase` maps the first four to š, œ, ž and ÿ, which LowerChar leaves
  as they are. No result of the model differs because of it. The parser
  compares a lowered field slice only with the ASCII words `s`, `sim`, `1`
  and `yes`. The one non-ASCII comparison, a type text against "não", reads
  a type text from the layout tables, not from the file, and its ã is the
  lower case of Ã (U+00C3), which LowerChar folds; none of Š, Œ, Ž and Ÿ
  occurs in "não". And `normalizeHeader` turns every non-ASCII character
  into `_` whether lowered or not. The generator reads UTF-8, so other Unicode case mappings are not
  modelled either, such as U+0130 or the Kelvin sign in a layout header,
  which `toLowerCase` maps to text containing ASCII letters.
- JsObject.Put keeps every key in insertion order. JavaScript lists
  integer-like keys (such as "1" or "42") first, in ascending order, and the
  other keys after them in insertion order. So a layout field or a CSV column
  named like an integer moves to the front of a decoded field object and of a
  row object. Only the order of keys differs, never a key's value; the one
  place where order matters, the `find` of an `obrig…` key, is unaffected
  because no such key is integer-like.
- LineDecoding.DecodedFieldsInOrder states layout order for the field object,
  which is JavaScript's key order only when no field name is integer-like;
  with such names the JavaScript object lists those fields first, as the line
  above says.
- RecordAssembly.Step, RecordAssembly.Header and RecordAssembly.Item keep a
  record's decoded fields apart from its tree structure. The code spreads the
  fields into the same object as the structure: `{ tipo: 1, ...parsed,
  itens: [], duplicatas: [] }`, and the like for items, details and
  installments. So in the code a field named `tipo` replaces the record-type
  tag of its record; a header field named `itens` or `duplicatas`, and an
  item field named `extras`, is replaced by the empty child list; every
  output object has a `tipo` key; and a placeholder item has `item: null`.
  The model keeps the type as the record's place in the tree and the fields
  untouched, so it has none of these collisions. The cursors follow the
  line's first character, not the object's `tipo`, so the tree's shape is
  the same in both.
- SafeSlice uses integer offsets. Fractional offsets from a layout file are not
  modelled.
- FieldDecoding.LayoutRow and FieldDecoding.Descriptor leave out the
  descriptor's `raw` copy of its layout entry (`f.raw || f`), which no
  decoding step reads. They hold `decimais` as
  `Option<int>`. The generator's
  `Number` can yield a fractional `decimais` (a cell "1.5"), which this type
  cannot represent, so the decoding of a decimal field with a fractional
  scale is not modelled.
- The layout tables' contents: the four JSON files are not part of this model,
  so `LayoutTable` takes the tables as parameters.
- LayoutGeneration.BuildRow normalizes all header names before its loop rather
  than inside it. `normalizeHeader` is pure, so the assignments are the same.
- FieldDecoding.BooleanExamples states the true cases and the empty slice, but
  not the false cases of other words. Those follow from BooleanWord.

Where the code behaves otherwise than a reader of its comments and names might expect, the model follows the code:

- The empty text gives one raw line (empty, with an empty type), not none:
  `"".split(...)` is `[""]`. See RecordAssembly.EmptyText.
- Decimal and integer decoding keep every `-`, not only a leading one.
  `parseInt` then reads the optional sign and the leading digits, so "1-2"
  gives 1 and "--1" gives NaN.
- A boolean field is never `null`, so an empty required boolean field reports
  no error, against the intended rule that an empty required slice always
  reports one.
- No decoded value is ever the empty string, so the code's `val === ''` test
  never fires (FieldDecoding.ParseField).
- In the generator, row keys are always canonical names. So the `descrição`
  and `término` variants never apply, and neither do the `seq_`, `seq.` and
  `seq,` fallbacks (LayoutGeneration.AccentedAliasesInert,
  LayoutGeneration.RecordSeq). When an `obrigatorio` key exists there is also
  always an `obrig…` key, so the `obj.obrigatorio` fallback never decides the
  flag (LayoutGeneration.RecordObrigatorio).
- A layout `decimais` of 0 becomes `null` through `|| null`, and the field is
  then decoded with scale 2 (FieldDecoding.ScaleOfDescribedRow).
