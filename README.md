# Shape persistence codec

The program keeps a vector of shapes: squares, rectangles, circles and ellipses. Each shape's
fields are nothing but C++ `int`s. The program saves the vector to a text file, one line per
shape, and reads the file back into a new vector. This project models that write path and that
read path, and proves properties of them:

- each class's `Save` and `Load`;
- the write loop over the vector;
- the tag-dispatch read loop.

The model works at the level of characters, as the C++ streams do:

- insertion of an `int` writes its shortest decimal numeral, with a minus sign when it is
  negative (`Decimal.IntToDecimal`);
- extraction of a word skips "C"-locale whitespace and takes the longest run of other
  characters (`Stream.ScanWord`);
- extraction of an `int` skips whitespace, accepts one `+` or `-`, then takes the longest run of
  digits (`Stream.ScanInt`). No digit at all, or a value outside the 32-bit range, sets the
  failbit.

The stream's failure rules are those of C++11:

- at the end of the input the target is left alone;
- where no numeral starts, the target is set to 0;
- a value out of range is replaced by the nearest bound;
- once the stream has failed, every later extraction does nothing.

The two files are objects whose state changes:

- `Files.OutFile` is the text written so far;
- `Files.InFile` is a fixed text, a cursor and a failbit. A failed stream keeps its cursor at
  the end of the text, because nothing reads that position again.

Each shape class (`Objects.Square`, …) has the source's fields. Its `Save` inserts the record,
piece by piece. Its `Load` extracts the fields into the object in place. `Objects.ShapeRef`
stands for the `std::shared_ptr<Shape>` held in the vectors, and a `match` on it stands for the
virtual call.

The value level pins down what the objects do:

- `Shapes.Shape` is a variant and its fields;
- `Writer.Save` and `Writer.Serialize` are the text the write loop produces;
- `Reader.ReadFrom` and `Reader.ReadShapes` are the shapes the read loop appends.

The methods `Program.WriteAll` and `Program.ReadAll` are proved against these functions. The
round trip is proved once, about the functions (`RoundTrip.Roundtrip`). It then carries over to
the objects (`Program.SaveThenLoad`).

The read loop is modelled as the code behaves:

- A tag that names none of the four classes is consumed, and nothing is appended. The if/else
  chain has no final `else`, so the record's fields are not consumed with it. The loop then
  reads them as tags, one by one. A numeral is never a class name, so they are skipped too
  (`Scenarios.UnknownRecordSkipped`).
- A record whose fields cannot all be read is still appended, as far as its fields were filled
  in. The failed stream then ends the loop (`Scenarios.TruncatedCircle`).

For these two inputs a stricter reader may be wanted, one that fails on them. The model
provides that reader too, `Reader.Deserialize`. It fails
with `UnknownTag`, `TruncatedRecord` or `NonIntegerField`. Whenever it succeeds it returns what
the program's loop loads, and on every file the writer produces it succeeds.

## Model

All source paths are in `ConsoleApplication29.cpp`.

| member | source | states |
|---|---|---|
| Decimal.NatToDigits | ConsoleApplication29.cpp:85 | The numeral of a natural number is digits only, at least one, and starts with `0` exactly when the number is 0. |
| Decimal.DigitsRoundTrip | ConsoleApplication29.cpp:88 | Reading the digits of a written numeral gives back the number. |
| Decimal.IntToDecimal | ConsoleApplication29.cpp:85 | `<<` of an `int` writes the shortest numeral of that value: a minus sign exactly when it is negative, then digits whose value is its magnitude, with a leading `0` only in the numeral `0` itself. |
| Decimal.DigitsToNat | ConsoleApplication29.cpp:88 | Definition: the value `>> x` builds from a run of digits, most significant first. Its properties are proved in `Decimal.DigitsRoundTrip` and `Stream.ScanIntMeaning`. |
| Decimal.NumeralCharacters | ConsoleApplication29.cpp:85 | A written numeral holds only a minus sign and digits. |
| Stream.SkipSpace | ConsoleApplication29.cpp:156 | Skipping whitespace stops at the end or at a character that is not whitespace, never before `pos`. |
| Stream.SkipSpaceSkipsBlanks | ConsoleApplication29.cpp:156 | Everything skipped is whitespace. |
| Stream.WordEndSkipsWord | ConsoleApplication29.cpp:156 | The run a word extraction takes contains no whitespace. |
| Stream.DigitsEndSkipsDigits | ConsoleApplication29.cpp:88 | The run an `int` extraction takes is all digits. |
| Stream.ScanWord | ConsoleApplication29.cpp:156 | A successful word extraction moves the cursor forward and stays inside the text. |
| Stream.ScanWordMeaning | ConsoleApplication29.cpp:156 | `>> shapeType` fails exactly when only whitespace is left; otherwise it takes a non-empty word without whitespace, preceded only by whitespace and ended by whitespace or the end of the input. |
| Stream.ScanInt | ConsoleApplication29.cpp:88 | A parsed `int` moves the cursor forward; a value out of range is replaced by `INT_MIN` or `INT_MAX`. |
| Stream.ScanIntMeaning | ConsoleApplication29.cpp:88 | `>> x` reports the end of the input exactly when only whitespace is left, and a parsed value ends on a digit not followed by a digit. |
| Files.OutFile.constructor | ConsoleApplication29.cpp:147 | A newly opened output file is empty. |
| Files.OutFile.Write | ConsoleApplication29.cpp:85 | `<<` of a string appends it to the file. |
| Files.OutFile.WriteInt | ConsoleApplication29.cpp:85 | `<<` of an `int` appends its decimal numeral. |
| Files.IntStep | ConsoleApplication29.cpp:88 | One `>> x`: a failed stream changes nothing and keeps `x`; a stream that fails ends up at the end of the text; a success is exactly a parsed numeral. |
| Files.Chain | ConsoleApplication29.cpp:88 | A chain of extractions gives each field a value and stays inside the text. |
| Files.ChainStep | ConsoleApplication29.cpp:88 | A chain is its first extraction followed by the rest of the chain. |
| Files.Chain3 | ConsoleApplication29.cpp:88 | `file >> x >> y >> side` is three single extractions, each starting where the last one ended. |
| Files.Chain4 | ConsoleApplication29.cpp:104 | `file >> x >> y >> width >> height` is four single extractions, each starting where the last one ended. |
| Files.InFile.constructor | ConsoleApplication29.cpp:154 | A newly opened input file is at its start, in a good state. |
| Files.InFile.ExtractWord | ConsoleApplication29.cpp:156 | `inFile >> shapeType` does nothing on a failed stream; otherwise it extracts the next word, or fails at end of input and leaves `shapeType` as it was. |
| Files.InFile.ExtractInt | ConsoleApplication29.cpp:88 | `file >> x` leaves the value, the cursor and the failbit `IntStep` describes. |
| Shapes.Arity | ConsoleApplication29.cpp:77-137 | Each variant has three or four fields. |
| Shapes.KindOf | ConsoleApplication29.cpp:77-137 | Definition: which of the four classes a shape belongs to. `Shapes.Fields`, `Shapes.Default` and `Shapes.FromFields` state what each kind holds. |
| Shapes.TagName | ConsoleApplication29.cpp:157-176 | The tag of each class is its class name, the word `Save` writes and the read loop compares against. It is non-empty, made of letters only, and starts with a capital, so it is a single word and never a numeral. Each tag names only its own class (`Shapes.Dispatch`). |
| Shapes.Dispatch | ConsoleApplication29.cpp:157-176 | The if/else chain selects a class exactly when the tag is that class's name, and each name selects only its own class. |
| Shapes.Fields | ConsoleApplication29.cpp:78 | A shape's fields in declared order, as many as its variant has, position first. |
| Shapes.Default | ConsoleApplication29.cpp:80 | `std::make_shared<C>()` builds a shape of kind C with every field 0 (the constructors' default arguments). |
| Shapes.FromFields | ConsoleApplication29.cpp:88 | A default shape whose fields are then assigned succeeds exactly when the count fits the variant, and has exactly those fields, whatever their values. |
| Shapes.FieldsInjective | ConsoleApplication29.cpp:78 | A shape is determined by its variant and its fields. |
| Shapes.FromFieldsOfFields | ConsoleApplication29.cpp:77-137 | Assigning a shape's own fields to a default object of its class rebuilds that shape. |
| Writer.Numerals | ConsoleApplication29.cpp:85 | There is one numeral per field. |
| Writer.NumeralsAreNumerals | ConsoleApplication29.cpp:85 | Each field is written as a numeral of its own value. |
| Writer.FieldsText | ConsoleApplication29.cpp:85 | The text after a record's tag: empty exactly when there are no fields, and otherwise starts with a space. |
| Writer.Save | ConsoleApplication29.cpp:84-86 | Definition of the record each class's `Save` writes: the tag, a space after it, the fields, and a final newline. The literal text per class is in `Writer.SaveSquare` through `Writer.SaveEllipse`, and the loads it gives back are in `RoundTrip.LoadRecordAt`. |
| Writer.SaveIsOneLine | ConsoleApplication29.cpp:84-86 | A record starts with its tag and is exactly one line: its only line break is its last character. |
| Writer.LineLayout | ConsoleApplication29.cpp:85 | A head, a body without line breaks and a final line break make one line that starts with the head. |
| Writer.SaveSquare | ConsoleApplication29.cpp:85 | A square's record is `Square x y side` and a newline. |
| Writer.SaveRectangle | ConsoleApplication29.cpp:101 | A rectangle's record is `Rectangle x y width height` and a newline. |
| Writer.SaveCircle | ConsoleApplication29.cpp:116 | A circle's record is `Circle x y radius` and a newline. |
| Writer.SaveEllipse | ConsoleApplication29.cpp:132 | An ellipse's record is `Ellipse x y width height` and a newline. |
| Writer.NumeralsListed | ConsoleApplication29.cpp:77-137 | The numerals of three or four fields, in order. |
| Writer.NumeralsOfFields | ConsoleApplication29.cpp:77-137 | The numerals of a shape's fields, in declared order. |
| Writer.RecordLayout | ConsoleApplication29.cpp:77-137 | A tag followed by space-separated words and a newline, written out. |
| Writer.FieldsTextCons | ConsoleApplication29.cpp:85 | The fields' text is a space and the first numeral, then the rest. |
| Writer.FieldsTextHasNoNewline | ConsoleApplication29.cpp:85 | No field's text holds a line break. |
| Writer.Serialize | ConsoleApplication29.cpp:148-150 | The write loop writes nothing exactly when the vector is empty. |
| Writer.SerializeConcat | ConsoleApplication29.cpp:148-150 | Writing two vectors one after the other writes their records in that order. |
| Writer.SerializeSnoc | ConsoleApplication29.cpp:149 | Saving one more shape appends its record after those of the shapes before it. |
| Writer.SerializeOne | ConsoleApplication29.cpp:149 | A vector of one shape is written as that shape's record. |
| Reader.ReadFields | ConsoleApplication29.cpp:88 | Extracting into the fields gives each field a value. It either succeeds and moves past every field, or fails with a truncated record or a non-integer field. |
| Reader.Load | ConsoleApplication29.cpp:87-89 | `Load` keeps the variant and reads exactly its fields, in declared order. It succeeds exactly when every extraction does, and then stops where the last field ends. |
| Reader.ReadFrom | ConsoleApplication29.cpp:156-177 | Definition of what the read loop appends from a cursor on. It appends at most one shape per character left. `Program.ReadAll` is proved to load exactly this. `RoundTrip.Roundtrip`, `Scenarios.UnknownRecordSkipped` and `Scenarios.TruncatedCircle` prove what it gives on saved, unknown and truncated records. |
| Reader.ReadShapes | ConsoleApplication29.cpp:153-177 | The shapes the read loop loads from the whole file: at most one per character, and none from a file that holds only whitespace. `RoundTrip.Roundtrip` proves it inverts `Writer.Serialize`. |
| Reader.Deserialize | ConsoleApplication29.cpp:153-177 | The fail-fast reader over the whole file: whenever it succeeds, it returns exactly what the read loop loads. `RoundTrip.Roundtrip` proves it succeeds on every saved file; `Scenarios.TruncatedCircle` and `Scenarios.TriangleThenCircle` show its errors. |
| Reader.DeserializeFrom | ConsoleApplication29.cpp:156-177 | When the fail-fast reader succeeds, it returns exactly what the program's read loop loads. |
| RoundTrip.ScanWordAt | ConsoleApplication29.cpp:156 | A tag written at the cursor and followed by whitespace is the word extracted there. |
| RoundTrip.ScanIntAt | ConsoleApplication29.cpp:88 | A space and a numeral at the cursor, followed by whitespace, is read back as that value. |
| RoundTrip.ReadFieldsAt | ConsoleApplication29.cpp:85-88 | The fields' text as `Save` writes it is read back into the same values, whatever the fields held before. |
| RoundTrip.RecordPlaced | ConsoleApplication29.cpp:85 | A record in the file is its tag, then the fields' text, then a newline. |
| RoundTrip.LoadOwnFields | ConsoleApplication29.cpp:87-89 | When the extractions read a shape's fields, `Load` gives that shape. |
| RoundTrip.LoadRecordAt | ConsoleApplication29.cpp:84-89 | At a saved record the tag is extracted, and a default object of its class loads exactly the saved shape. |
| RoundTrip.ReadFromRecord | ConsoleApplication29.cpp:157-160 | A tag that names a class whose `Load` succeeds appends that shape, then the loop goes on where `Load` stopped. |
| RoundTrip.DeserializeFromRecord | ConsoleApplication29.cpp:157-160 | The fail-fast reader takes a record the same way and goes on from where `Load` stopped. |
| RoundTrip.ReadRecordAt | ConsoleApplication29.cpp:156-177 | A saved record is loaded as the saved shape, and the loop goes on after its line. |
| RoundTrip.ReadRecordsAt | ConsoleApplication29.cpp:156-177 | The records of a vector are loaded as that vector, in order, followed by whatever comes after them. |
| RoundTrip.DeserializeRecordsAt | ConsoleApplication29.cpp:156-177 | The fail-fast reader loads the records of a vector the same way. |
| RoundTrip.Roundtrip | ConsoleApplication29.cpp:147-177 | Reading back what the write loop wrote gives exactly the vector's shapes, same length, order, variants and field values, for any values; the fail-fast reader succeeds on it with the same shapes. |
| Scenarios.ProgramShapes | ConsoleApplication29.cpp:140-145 | Definition of the program's vector as shapes. `Program.NewProgramShapes` builds objects holding them, and `Scenarios.ProgramFile` proves they are written and read back. |
| Scenarios.SquareRecord | ConsoleApplication29.cpp:141 | The program's square is saved as `Square 0 0 10`. |
| Scenarios.RectangleRecord | ConsoleApplication29.cpp:142 | The program's rectangle is saved as `Rectangle 1 1 20 10`. |
| Scenarios.CircleRecord | ConsoleApplication29.cpp:143 | The program's circle is saved as `Circle 5 5 7`. |
| Scenarios.EllipseRecord | ConsoleApplication29.cpp:144 | The program's ellipse is saved as `Ellipse 2 2 10 6`. |
| Scenarios.SerializeFour | ConsoleApplication29.cpp:148-150 | Four shapes are written as their four records, in order. |
| Scenarios.ProgramText | ConsoleApplication29.cpp:140-150 | `shapes.txt` holds the four lines for the program's vector. |
| Scenarios.ProgramFile | ConsoleApplication29.cpp:140-177 | `shapes.txt` holds those four lines, and reading it back gives the program's four shapes. |
| Scenarios.TruncatedCircleFields | ConsoleApplication29.cpp:119 | On `Circle 1 2` the radius extraction hits the end of the input: the fields hold 1, 2 and 0. |
| Scenarios.TruncatedCircleRecord | ConsoleApplication29.cpp:167-169 | On `Circle 1 2` the tag is `Circle`, and its `Load` fails as truncated, leaving the circle (1, 2, 0). |
| Scenarios.TruncatedCircle | ConsoleApplication29.cpp:167-177 | `Circle 1 2` loads the single partial circle (1, 2, 0); the fail-fast reader reports a truncated record. |
| Scenarios.UnknownWordAt | ConsoleApplication29.cpp:156-177 | A word that names no class is consumed and nothing is appended; the fail-fast reader reports it as an unknown tag. |
| Scenarios.NumeralIsNoTag | ConsoleApplication29.cpp:157-176 | A numeral is a word, and it names no class. |
| Scenarios.SkipNumeralsAt | ConsoleApplication29.cpp:156-177 | Numerals read as tags are skipped one by one, and nothing is appended for them. |
| Scenarios.UnknownRecordLayout | ConsoleApplication29.cpp:156 | A line with an unknown tag and numeric fields splits into the tag, the fields and the line break before the rest. |
| Scenarios.UnknownRecordPassed | ConsoleApplication29.cpp:156-177 | A whole line with an unknown tag is passed over with nothing appended; the fail-fast reader reports an unknown tag. |
| Scenarios.NothingAfterEnd | ConsoleApplication29.cpp:156 | At the end of the input the loop appends nothing more. |
| Scenarios.UnknownRecordSkipped | ConsoleApplication29.cpp:156-177 | A line with an unknown tag before saved records is skipped: exactly the saved shapes are loaded; the fail-fast reader reports the unknown tag. |
| Scenarios.TriangleFields | ConsoleApplication29.cpp:85 | The fields 1, 2, 3 are written as ` 1 2 3`. |
| Scenarios.TriangleIsNoTag | ConsoleApplication29.cpp:157-176 | `Triangle` is a word that names no class. |
| Scenarios.TriangleLine | ConsoleApplication29.cpp:156 | `Triangle 1 2 3` is the tag `Triangle` followed by the fields 1, 2, 3. |
| Scenarios.TriangleThenCircleText | ConsoleApplication29.cpp:156 | `Triangle 1 2 3` then `Circle 5 5 7` is an unknown line followed by the record of the circle (5, 5, 7). |
| Scenarios.TriangleThenCircle | ConsoleApplication29.cpp:156-177 | `Triangle 1 2 3` then `Circle 5 5 7` loads only the circle; the fail-fast reader reports the unknown tag `Triangle`. |
| Scenarios.BlankText | ConsoleApplication29.cpp:156 | A file of nothing but whitespace loads nothing, and it is the only kind of file the fail-fast reader turns into an empty vector. |
| Objects.LoadStep | ConsoleApplication29.cpp:87-89 | Definition of what one `Load` leaves behind: on a failed stream nothing changes; otherwise the fields and the cursor are as `Reader.Load` gives, and the stream fails at the end of the text when the record cannot be read. `Objects.LoadStepOfChain` proves each class's extraction chain meets it. |
| Objects.ChainReadsFields | ConsoleApplication29.cpp:88 | A chain of extractions on the stream reads the fields exactly as `Reader.ReadFields` does, and a chain on a failed stream assigns nothing. |
| Objects.LoadStepOfChain | ConsoleApplication29.cpp:87-89 | A chain that reads the fields of one shape into those of another of the same variant is exactly one `Load`. |
| Objects.Square.constructor | ConsoleApplication29.cpp:80 | The new square holds its arguments; each argument left out is 0. |
| Objects.Square.Save | ConsoleApplication29.cpp:84-86 | `Square::Save` appends `Writer.Save` of the square to the file. |
| Objects.Square.Load | ConsoleApplication29.cpp:87-89 | `Square::Load` leaves the object and the stream as `Reader.Load` says: x, y, side extracted in order. |
| Objects.Rectangle.constructor | ConsoleApplication29.cpp:95-96 | The new rectangle holds its arguments; each argument left out is 0. |
| Objects.Rectangle.Save | ConsoleApplication29.cpp:100-102 | `Rectangle::Save` appends `Writer.Save` of the rectangle to the file. |
| Objects.Rectangle.Load | ConsoleApplication29.cpp:103-105 | `Rectangle::Load` leaves the object and the stream as `Reader.Load` says: x, y, width, height extracted in order. |
| Objects.Circle.constructor | ConsoleApplication29.cpp:111 | The new circle holds its arguments; each argument left out is 0. |
| Objects.Circle.Save | ConsoleApplication29.cpp:115-117 | `Circle::Save` appends `Writer.Save` of the circle to the file. |
| Objects.Circle.Load | ConsoleApplication29.cpp:118-120 | `Circle::Load` leaves the object and the stream as `Reader.Load` says: x, y, radius extracted in order. |
| Objects.Ellipse.constructor | ConsoleApplication29.cpp:126-127 | The new ellipse holds its arguments; each argument left out is 0. |
| Objects.Ellipse.Save | ConsoleApplication29.cpp:131-133 | `Ellipse::Save` appends `Writer.Save` of the ellipse to the file. |
| Objects.Ellipse.Load | ConsoleApplication29.cpp:134-136 | `Ellipse::Load` leaves the object and the stream as `Reader.Load` says: x, y, width, height extracted in order. |
| Objects.ValuesOf | ConsoleApplication29.cpp:153 | A vector of pointers holds one shape per pointer. |
| Objects.ValuesOfIndex | ConsoleApplication29.cpp:140-145 | The `i`-th shape of a vector is the one its `i`-th pointer points to. |
| Objects.ValuesOfSnoc | ConsoleApplication29.cpp:160 | `push_back` of a pointer appends the shape it points to after the others. |
| Objects.SaveShape | ConsoleApplication29.cpp:149 | `shape->Save(outFile)` appends the record of the shape the pointer points to, and changes no shape. |
| Objects.LoadNew | ConsoleApplication29.cpp:157-176 | For the kind the tag named, a new object with every field 0 loads itself from the file, as `Reader.Load` says. |
| Objects.LoadNewSquare | ConsoleApplication29.cpp:158-159 | A new default `Square` loads itself from the file. |
| Objects.LoadNewRectangle | ConsoleApplication29.cpp:163-164 | A new default `Rectangle` loads itself from the file. |
| Objects.LoadNewCircle | ConsoleApplication29.cpp:168-169 | A new default `Circle` loads itself from the file. |
| Objects.LoadNewEllipse | ConsoleApplication29.cpp:173-174 | A new default `Ellipse` loads itself from the file. |
| Program.Remaining | ConsoleApplication29.cpp:156-177 | Definition: what the read loop has still to append, which is nothing once the stream has failed and `Reader.ReadFrom` otherwise. It is at most one shape per character left. `Program.ReadAll`'s loop invariant is stated with it. |
| Program.WriteAll | ConsoleApplication29.cpp:147-151 | The write loop appends `Writer.Serialize` of the vector's shapes to the file: their records, in vector order. |
| Program.SaveNext | ConsoleApplication29.cpp:149 | One pass of the write loop appends the `i`-th record after those of the shapes before it, and changes no shape. |
| Program.ReadStep | ConsoleApplication29.cpp:156-176 | A pass that extracts a known tag and loads its object begins what is left to load; the rest is what is left after `Load`. |
| Program.Advance | ConsoleApplication29.cpp:156-177 | The read loop's invariant survives a pass that appends a shape: what was appended, plus what is left, is still everything the file holds. |
| Program.SkipStep | ConsoleApplication29.cpp:156-177 | A pass over a tag that names no class appends nothing and leaves the rest to load unchanged. |
| Program.ReadAll | ConsoleApplication29.cpp:153-178 | The read loop ends with the stream failed. `loadedShapes` then holds exactly `Reader.ReadFrom` of the file, each pointing to a new object. |
| Program.SaveThenLoad | ConsoleApplication29.cpp:147-178 | Saving a vector and reading the file back gives new objects holding the same shapes in the same order; the file is `Writer.Serialize` of the shapes. |
| Program.NewProgramShapes | ConsoleApplication29.cpp:140-145 | The program's vector holds the square (0, 0, 10), the rectangle (1, 1, 20, 10), the circle (5, 5, 7) and the ellipse (2, 2, 10, 6). |
| Program.Run | ConsoleApplication29.cpp:140-178 | The program writes exactly the four lines for its vector, and reads back those four shapes. |

## Left out

- The equation solver (lines 5–63) is not part of this model. It works in `double` with `sqrt`, and it only prints.
- The `Show` methods (lines 81–83, 97–99, 112–114, 128–130) and the loop that calls them (180–182) are left out. They only write display text to the console.
- Opening and closing `shapes.txt` (lines 147, 151, 154, 178) and every I/O error are left out. The output file is an in-memory text, and the input file reads that same text.
- `std::shared_ptr` ownership, reference counts and destructors are left out. A `ShapeRef` is a plain reference to the object.
- The eofbit is left out, and so is where a failed stream's cursor really stands. The model keeps the cursor of a failed stream at the end of the text, and nothing in the program looks at it again.
- `int` is taken to be 32 bits. Stream input is taken to be in the "C" locale with `skipws` set, and characters are Unicode code points, with no multi-byte encoding.
- Reader.Deserialize: it reports a numeral out of range as `NonIntegerField`, the same as a field that is no numeral at all. It has no error of its own for that case.
