# Verification of the grid's message, loader and registry logic

A Dafny model of five parts of the data grid, with proofs about every input, every run and every
interleaving. `dafny verify dfyconfig.toml` checks the whole project.

**Messages as JSON** (`Schema`, `Json*`). A schema is a list of message types; a message has a slot
for each field: unset, one value, or a list. The printer is a set of methods that append to an
output stream in the order in which the C++ code does; each is proved to append the text of a JSON
tree. The parser updates a message object pair by pair from a JSON tree. A reader written from the grammar of
RFC 4627 (section 2, strings section 2.5) stands for yajl. The main results: parsing a printed
message into any target is a merge; the message comes back exactly if its strings are UTF-8 and the
text keeps its scalars;
the compact text is written down directly, and the pretty text is what a one-pass formatter makes
of it; a failed parse leaves exactly what parsing a truncated tree gives. For every kind of field and
of JSON value it is stated what a literal text does to a message.

**Order and hash of messages** (`Compare*`, `Lexical`, `Strings`, `Hash*`). The comparison loops
subtract integers and narrow the result to 32 bits. For any integers, `compare` is shown to compare
flattened messages value by value. Where the first values that differ are told apart, as they are
when all integers are within a window of 2^31, it is the lexicographic order, `less` and `orderless`
are strict weak orderings, and messages that compare equal hash alike. The first field that differs
decides, by the order of its own values, which is spelled out for each kind of field. When `compare` gives 0, when
its sign is right, and for which types the order, equality and the hash contract hold on all messages
is stated exactly. The hash is a polynomial modulo 2^64 with an invertible multiplier.

**Loaders** (`Loader`, `BatchLoader`, `StandaloneLoader`, `InClusterLoader`). Threads share a file
cursor under a lock. A run is any sequence of atomic steps; a block under the lock is one step. For
the in-cluster loader it is shown that every run ends, and exactly in which settings it can shut down
with a request open.

**Actor registry and descriptors** (`OrderedMap`, `Descriptor`, `ActorRegistry`). `std::map` is the
list of its entries in key order. Registering a module resolves its actors against the registry
while the registry grows.

**Variants** (`Variant`) own strings in an explicit memory. **The prototype cache**
(`PrototypeCache`) stands in front of three pools that grow while threads look names up; it is shown
exactly which steps make it visible.

Each class method or loop is proved equal to a function of its inputs and old state; the results are
lemmas about these functions and about runs of steps.

What comes from outside is a parameter: how the C++ library prints and reads doubles (`Libc`), its
hash functions (`Hasher`, uninterpreted), the contents of the disk, whether a request succeeds, and
the interleaving. `Options` and `Sequences` hold what all parts share.

Where the code and its documentation differ, the model follows the code: `orderless` is documented as
"less", but its results for null messages read as true both ways (`CompareLaws.OrderlessAsymmetry`);
`compare` promises the sign of the order, which it keeps exactly
as `CompareLaws.SignIsRight` says.

## Model

| member | source | states |
|---|---|---|
| JsonLaws.PrintThenParse | raf/framework/src/protobuf/protobuf_json.cpp:243-562 | parsing the text of any message, compact or pretty, at any depth, into any target of its type is a merge: set scalars overwrite, sub-messages merge, repeated fields append; it fails, and leaves the target alone, exactly if some string is not UTF-8 |
| JsonLaws.RoundTrip | raf/framework/src/protobuf/protobuf_json.cpp:243-562 | parsed into an empty message the text gives back the message, presence bits included, exactly if every string at any depth is UTF-8 and every scalar survives the text (no NUL in a string, a uint64 from 2^63 on is a multiple of 2048, a real survives its default-precision text) |
| JsonLaws.PrettyText | raf/framework/src/protobuf/protobuf_json.cpp:121-204 | the pretty text without the white space outside string literals is the compact text |
| JsonLayout.PrettyIsLaidOut | raf/framework/src/protobuf/protobuf_json.cpp:87-204 | the layout, in terms of texts alone: the pretty text is what a one-pass formatter makes of the compact one (a line after every opening bracket and comma and before every closing bracket, a space after every colon), and every line begins with two spaces for each bracket open in front of it outside string literals, at most 128, and then a visible character |
| JsonLayout.LayoutIsLaidOut | raf/framework/src/protobuf/protobuf_json.cpp:87-96 | the formatter indents every line so, for any text |
| JsonCompact.MessageSpelled | raf/framework/src/protobuf/protobuf_json.cpp:243-325 | the compact text, written down directly: the fields that are set and the repeated fields with an element, in the order of their declarations, each with its name and its value; booleans as 1 and 0, enum values by the name declared first |
| JsonCompact.CharacterSpelled | raf/framework/src/protobuf/protobuf_json.cpp:26-83 | the escape of every character: the table of section 2.5 of RFC 4627, and \u00 with two upper-case digits |
| JsonLaws.LargeUnsignedIsRounded | raf/framework/src/protobuf/protobuf_json.cpp:397-414 | a concrete uint64 that does not come back: 2^63 + 1 is read as 2^63 |
| JsonCut.AppliesTheCut | raf/framework/src/protobuf/protobuf_json.cpp:472-562 | wherever a parse fails, inside arrays and sub-messages of any depth, the message it leaves is the one that parsing the applied part of the tree gives without a failure; nothing is cut off a parse that succeeds |
| JsonCut.CutIsTruncated | raf/framework/src/protobuf/protobuf_json.cpp:472-562 | the applied part is a truncation: the first pairs or elements, and at most one more with its value truncated, at every level |
| JsonCut.DuplicatesAppend | raf/framework/src/protobuf/protobuf_json.cpp:480-485 | two pairs for one repeated field are one pair with both lists, failures included |
| JsonCut.DuplicatesMerge | raf/framework/src/protobuf/protobuf_json.cpp:472-477 | two pairs for one message field are one pair with the pairs of both objects, failures included |
| JsonLaws.MemberIsLocal | raf/framework/src/protobuf/protobuf_json.cpp:499-558 | a pair changes no other field than its own, and what it does depends on that field alone |
| JsonLaws.FieldsAreIndependent | raf/framework/src/protobuf/protobuf_json.cpp:499-558 | each field ends as if only the pairs that name it had been applied |
| JsonLaws.OrderAcrossFields | raf/framework/src/protobuf/protobuf_json.cpp:499-558 | two lists of pairs with the same pairs per field, in whatever order across fields, give the same message |
| JsonLaws.LastDuplicateWins | raf/framework/src/protobuf/protobuf_json.cpp:499-558 | of several pairs for one singular scalar field the last decides |
| JsonLaws.PrintClean | raf/framework/src/protobuf/protobuf_json.cpp:26-204 | no control character is written raw, except line breaks in pretty form |
| JsonRoundTrip.ApplyMembersAppend | raf/framework/src/protobuf/protobuf_json.cpp:499-558 | applying a concatenation of pairs is applying one part, then the other, unless the first fails |
| JsonRoundTrip.ApplyElementsAppend | raf/framework/src/protobuf/protobuf_json.cpp:480-488 | the same for the elements of an array |
| JsonRoundTrip.ApplyPrinted | raf/framework/src/protobuf/protobuf_json.cpp:397-562 | applying the tree of a message to a target is the merge of what the text keeps |
| JsonRoundTrip.ConvertScalarTree | raf/framework/src/protobuf/protobuf_json.cpp:397-470 | converting the text of a scalar of any kind gives the scalar as the text keeps it |
| JsonLiterals.BoolFromKeyword | raf/framework/src/protobuf/protobuf_json.cpp:417-442 | the text true or false in a bool field sets (in an array, adds) that value; null and an object are errors that leave the target alone |
| JsonLiterals.BoolFromString | raf/framework/src/protobuf/protobuf_json.cpp:417-426 | a string in a bool field is true exactly if up to its first NUL it is 1, or true or yes in small and capital letters |
| JsonLiterals.BoolFromNumber | raf/framework/src/protobuf/protobuf_json.cpp:427-437 | a number in a bool field is true exactly if it is not 0; one that is no double is an error |
| JsonLiterals.IntegerFromInteger | raf/framework/src/protobuf/protobuf_json.cpp:397-400 | an integer text of less than 64 bits in an integer field gives the value of the field type it is congruent to |
| JsonLiterals.IntegerFromLargeInteger | raf/framework/src/protobuf/protobuf_json.cpp:401-402 | from 2^63 to 2^64, of either sign, it goes through the nearest double, ties to even |
| JsonLiterals.IntegerFromReal | raf/framework/src/protobuf/protobuf_json.cpp:401-402 | a number with a fraction or exponent in an integer field is truncated towards zero and wrapped around |
| JsonLiterals.IntegerFromStream | raf/framework/src/protobuf/protobuf_json.cpp:403-404 | a number that is no double is read by a string stream |
| JsonLiterals.IntegerFromString | raf/framework/src/protobuf/protobuf_json.cpp:405-406 | so is a string, up to its first NUL |
| JsonLiterals.RealFromInteger | raf/framework/src/protobuf/protobuf_json.cpp:397-400 | an integer of up to 53 bits in a double or float field |
| JsonLiterals.RealFromReal | raf/framework/src/protobuf/protobuf_json.cpp:401-402 | a number with a fraction or exponent in a double or float field |
| JsonLiterals.RealFromString | raf/framework/src/protobuf/protobuf_json.cpp:405-406 | a string in a double or float field is read by a string stream |
| JsonLiterals.NotTaken | raf/framework/src/protobuf/protobuf_json.cpp:407-413 | true, false, null and an object in an integer, real, enum or string field are errors that leave the target alone |
| JsonLiterals.EnumFromString | raf/framework/src/protobuf/protobuf_json.cpp:445-447 | a string in an enum field gives the number of the value of that name; an unknown name hands NULL to the setter |
| JsonLiterals.EnumFromNumber | raf/framework/src/protobuf/protobuf_json.cpp:448-449 | a number in an enum field: an integer wrapped around to 32 bits; whatever is no integer of 63 bits counts as -1, with a minus sign as 0; NULL if no value has the number |
| JsonLiterals.StringFromString | raf/framework/src/protobuf/protobuf_json.cpp:460-470 | a string field keeps a string up to its first NUL; a number is an error |
| JsonLiterals.UnknownName | raf/framework/src/protobuf/protobuf_json.cpp:501-505 | a name that is no field is an error that leaves the target alone |
| JsonLiterals.WrongShape | raf/framework/src/protobuf/protobuf_json.cpp:507-510 | so is an array for a singular field, or anything else for a repeated one |
| JsonLiterals.NoObject | raf/framework/src/protobuf/protobuf_json.cpp:490-493 | so is a text that is no object; an empty object changes nothing |
| JsonLiterals.SubMessage | raf/framework/src/protobuf/protobuf_json.cpp:472-477 | a text for a message field is parsed into the sub-message there, or a new one, which is kept even if that fails |
| JsonLiterals.AroundDocument | raf/framework/src/protobuf/protobuf_json.cpp:340-347 | white space around a text changes nothing; anything else after it is an error |
| JsonLiterals.DecimalDigits | raf/framework/src/protobuf/protobuf_json.cpp:98-101 | integers are written in decimal digits |
| JsonLiterals.SignedDigits | raf/framework/src/protobuf/protobuf_json.cpp:98-101 | with a minus sign in front if they are negative |
| JsonLiterals.NumberFromParts | raf/framework/src/protobuf/protobuf_json.cpp:340-347 | the reader that stands for yajl takes as a number every sign, integer part, fraction and exponent of section 2.4 of RFC 4627 |
| JsonLiterals.NumberParts | raf/framework/src/protobuf/protobuf_json.cpp:340-347 | and nothing else |
| JsonMerge.RoundNatNearest | raf/framework/src/protobuf/protobuf_json.cpp:399-402 | a double is the nearest multiple of a distance that leaves it 53 bits, on a tie the even one |
| JsonMerge.UlpBounds | raf/framework/src/protobuf/protobuf_json.cpp:399-402 | that distance |
| JsonMerge.MergeIntoEmpty | raf/framework/src/protobuf/protobuf_json.cpp:472-488 | merging into an empty message gives the message |
| JsonMerge.CanonExact | raf/framework/src/protobuf/protobuf_json.cpp:397-470 | the text changes nothing of a message exactly if it keeps every scalar |
| JsonMerge.DoubleFrom63 | raf/framework/src/protobuf/protobuf_json.cpp:399-402 | from 2^63 on a uint64 survives the double branch exactly if it is a multiple of 2048 |
| JsonText.EscapeAppend | raf/framework/src/protobuf/protobuf_json.cpp:32-83 | escaping distributes over concatenation |
| JsonText.EscapeUnbroken | raf/framework/src/protobuf/protobuf_json.cpp:32-83 | an escaped text holds no control character and no quote without a backslash |
| JsonText.Indent | raf/framework/src/protobuf/protobuf_json.cpp:87-96 | at most 128 spaces, the length of the buffer they are written from |
| JsonReadBack.ReadEscaped | raf/framework/src/protobuf/protobuf_json.cpp:32-83 | decoding by section 2.5 of RFC 4627 undoes the escaping, for every byte string |
| JsonReadBack.ReadDocumentPrinted | raf/framework/src/protobuf/protobuf_json.cpp:121-325 | a reader for the grammar of section 2 of RFC 4627 reads every printed tree back, compact and pretty, exactly if all its strings are UTF-8, and else fails |
| JsonReadBack.DecIsInteger | raf/framework/src/protobuf/protobuf_json.cpp:98-101 | a printed integer is a JSON number and reads back as itself |
| JsonPretty.PrettyIsCompact | raf/framework/src/protobuf/protobuf_json.cpp:121-204 | pretty and compact text of any tree agree without white space, whatever the two nesting depths |
| JsonMessage.FirstWithNumber | raf/framework/src/protobuf/protobuf_json.cpp:444-457 | a JSON node converted to an enum gives a number the enum has |
| JsonPrinter.EscapeOf | raf/framework/src/protobuf/protobuf_json.cpp:46-67 | the switch of the escaping loop gives NULL exactly for characters whose escape is the character itself, else their escape |
| JsonPrinter.JsonStringEscape | raf/framework/src/protobuf/protobuf_json.cpp:32-83 | the loop with its begin and end marks writes the character-by-character escape of the whole string |
| JsonPrinter.PrintIndent | raf/framework/src/protobuf/protobuf_json.cpp:87-96 | writes the capped indentation, nothing in compact form |
| JsonPrinter.PrintFieldName | raf/framework/src/protobuf/protobuf_json.cpp:121-129 | writes the quoted, escaped name and the colon |
| JsonPrinter.PrintString | raf/framework/src/protobuf/protobuf_json.cpp:103-109 | writes the quoted, escaped string |
| JsonPrinter.PrintEnumName | raf/framework/src/protobuf/protobuf_json.cpp:111-114 | writes the quoted name, which needs no escaping |
| JsonPrinter.PrintScalar | raf/framework/src/protobuf/protobuf_json.cpp:98-114 | writes the text of one scalar by kind |
| JsonPrinter.PrintValue | raf/framework/src/protobuf/protobuf_json.cpp:98-119 | writes the text of one value: a message from its own field loop, or a scalar |
| JsonPrinter.FieldToJsonStream | raf/framework/src/protobuf/protobuf_json.cpp:133-204 | writes the array of a repeated field or the value of a singular one |
| JsonPrinter.ToJsonStream | raf/framework/src/protobuf/protobuf_json.cpp:243-325 | appends exactly the printed tree of the message, at the given depth |
| JsonPrinter.ToJsonString | raf/framework/src/protobuf/protobuf_json.cpp:243-325 | the text from depth 0 |
| JsonParser.Message.Set | raf/framework/src/protobuf/protobuf_json.cpp:414-414 | the Set methods of reflection change one field |
| JsonParser.Message.Add | raf/framework/src/protobuf/protobuf_json.cpp:480-485 | the Add methods of reflection append to one field |
| JsonParser.AddElements | raf/framework/src/protobuf/protobuf_json.cpp:480-485 | the loop over an array: elements are added one by one up to the first that fails |
| JsonParser.SetField | raf/framework/src/protobuf/protobuf_json.cpp:486-488 | sets a singular scalar, or recurses into the sub-message |
| JsonParser.JsonToField | raf/framework/src/protobuf/protobuf_json.cpp:490-562 | the loop over the pairs, with its unknown-field and array-mismatch errors |
| JsonParser.ParseJsonFromString | raf/framework/src/protobuf/protobuf_json.cpp:335-358 | reads the text up to its first NUL and applies the tree; a syntax error leaves the target alone; a null message is an error |
| CompareLaws.CompareIsOrder | raf/framework/src/protobuf/msg_comparer.cpp:83-270 | on messages of one type, a null message before all others, compare is reflexive, antisymmetric and transitive in sign, through nested messages, lists and the length tie-break, if only the first values that differ are told apart by the narrowed subtraction |
| CompareFields.FirstFieldDecides | raf/framework/src/protobuf/msg_comparer.cpp:42-113 | the first field that does not compare as equal decides: compare gives its result, orderless follows its sign or, if the flag of that very field is set, the opposite sign, but for -2^31, which has none |
| CompareFields.NoFieldDecides | raf/framework/src/protobuf/msg_comparer.cpp:76-112 | if there is none, compare gives 0 and orderless puts neither message first |
| CompareFields.ScalarFieldDecides | raf/framework/src/protobuf/msg_comparer.cpp:115-168 | messages that agree before a singular field are ordered by its two values, set or default: strings by the smaller character at the first difference, numbers by size within the window, false before true, enums by number; the exact results for numbers (the difference) and reals (2 and -2) |
| CompareFields.ListFieldDecides | raf/framework/src/protobuf/msg_comparer.cpp:175-270 | messages that agree before a repeated field are ordered by the first difference of the two lists, enum values by position, a list that ends first coming first |
| CompareFields.MessageFieldDecides | raf/framework/src/protobuf/msg_comparer.cpp:162-163 | messages that agree before a message field compare as the two sub-messages, an unset one as one with nothing set |
| CompareLaws.SignIsRight | raf/framework/src/protobuf/msg_comparer.cpp:83-168 | for any two messages and any integers, exactly when the sign of compare is the order of the flattened messages: an arithmetic condition on the first difference |
| CompareLaws.WindowIsOrdered | raf/framework/src/protobuf/msg_comparer.cpp:136-143 | if all compared integers are less than 2^31 apart, all these results hold |
| CompareLaws.LessIsStrictWeak | raf/framework/src/protobuf/msg_comparer.cpp:21-28 | less is a strict weak ordering where the first differences are told apart |
| CompareLaws.EqualIsSameReading | raf/framework/src/protobuf/msg_comparer.cpp:30-32 | where they are, compare gives 0 exactly if every field reads the same, at any depth |
| CompareLaws.OrderlessIsStrictWeak | raf/framework/src/protobuf/msg_comparer.cpp:42-77 | orderless is a strict weak ordering on non-null messages, for any flags of any length, where the first differences are told apart |
| CompareLaws.OrderlessUniform | raf/framework/src/protobuf/msg_comparer.cpp:42-77 | with no flag set orderless is less, for all messages; with every field flagged it is, where the first difference is told apart, less the other way round |
| CompareLaws.OrderlessAsymmetry | raf/framework/src/protobuf/msg_comparer.cpp:42-49 | orderless puts a null message both before and after every other one: asymmetry fails exactly if one of the two is null |
| CompareLaws.WindowIsExact32 | raf/framework/src/protobuf/msg_comparer.cpp:140-143 | for 32-bit fields the narrowed subtraction has the right sign exactly inside the window |
| CompareLaws.WindowIsExact | raf/framework/src/protobuf/msg_comparer.cpp:136-139 | for any integers: exactly which differences keep their sign when narrowed to 32 bits |
| CompareTypes.LessIsOrderIff | raf/framework/src/protobuf/msg_comparer.cpp:21-23 | less is a strict weak ordering on all messages of a type, null included, exactly if the type has, at any depth, no integer field and no singular enum field whose numbers do not fit in half a turn of the 2^32 circle |
| CompareTypes.OrderlessIsOrderIff | raf/framework/src/protobuf/msg_comparer.cpp:42-77 | orderless is one on the messages of a type for all flags under exactly the same condition |
| CompareTypes.MessagesByRank | raf/framework/src/protobuf/msg_comparer.cpp:83-168 | in such a type compare is the lexicographic order of the values, an enum number counting from the pivot of its enum |
| CompareTypes.IntegersSpoil | raf/framework/src/protobuf/msg_comparer.cpp:136-143 | every type with an integer field, at any depth, has three messages that break the laws |
| CompareTypes.EnumsSpoil | raf/framework/src/protobuf/msg_comparer.cpp:160-161 | so has every type with a singular enum field whose numbers do not fit in half a turn |
| CompareLaws.AsymmetryFailsIff | raf/framework/src/protobuf/msg_comparer.cpp:136-143 | for any two messages: each is less than the other exactly if the first pair seen as different are integers 2^31 apart modulo 2^32 |
| CompareLaws.CompareByFirstSeen | raf/framework/src/protobuf/msg_comparer.cpp:83-168 | the sign of compare is that of the low 32 bits of the first difference that has any |
| CompareLaws.OrderlessAscending | raf/framework/src/protobuf/msg_comparer.cpp:58-73 | with no flag set the field loops of orderless and compare decide alike, whatever the integers |
| CompareLaws.CycleOutsideWindow | raf/framework/src/protobuf/msg_comparer.cpp:140-141 | three uint32 messages that are less than each other in a cycle |
| CompareLaws.EqualOutsideWindow | raf/framework/src/protobuf/msg_comparer.cpp:138-139 | two different int64 messages that compare equal |
| CompareExact.ZeroIsCongruent | raf/framework/src/protobuf/msg_comparer.cpp:83-168 | for any messages of one type, compare gives 0 exactly if lists have equal lengths, compared integers are congruent modulo 2^32, and everything else is equal, at any depth |
| CompareExact.EqualsIsRightIffNarrow | raf/framework/src/protobuf/msg_comparer.cpp:30-32 | equals_to is right for all messages of a type exactly if the type has no 64-bit integer field, at any depth |
| CompareExact.NarrowIsSame | raf/framework/src/protobuf/msg_comparer.cpp:136-143 | in a type without 64-bit integers congruent messages read the same |
| CompareExact.WideCongruent | raf/framework/src/protobuf/msg_comparer.cpp:136-139 | in every type with a 64-bit integer, at any depth, two messages differ and compare equal |
| CompareOrder.MessagesByKey | raf/framework/src/protobuf/msg_comparer.cpp:83-168 | for any integers, compare compares the flattened messages value by value with narrowed subtractions, and never runs past the end of one |
| CompareOrder.CompareByFirstDifference | raf/framework/src/protobuf/msg_comparer.cpp:83-168 | compare gives the result of the first values that differ, unless it cannot see them differ |
| CompareOrder.NearIsTold | raf/framework/src/protobuf/msg_comparer.cpp:136-143 | inside the window the first difference is told apart |
| CompareOrder.OrderlessByColumns | raf/framework/src/protobuf/msg_comparer.cpp:58-73 | where the first difference is told apart, orderless is lexicographic order over the fields with the flagged fields reversed |
| CompareOrder.KeyInjective | raf/framework/src/protobuf/msg_comparer.cpp:83-168 | messages have the same flattened form exactly if they read the same |
| Lexical.LexLaws | raf/framework/src/protobuf/msg_comparer.cpp:99-112 | the reference order is total |
| Lexical.ColumnLaws | raf/framework/src/protobuf/msg_comparer.cpp:58-73 | the reference order with reversed columns is total |
| Strings.StringOrder | raf/framework/src/protobuf/msg_comparer.cpp:145-145 | negative exactly if the first string is a proper prefix of the second or has the smaller character at the first difference |
| Strings.StringLaws | raf/framework/src/protobuf/msg_comparer.cpp:145-145 | the order of std::string is total, and only equal strings compare equal |
| Compare.Narrow | raf/framework/src/protobuf/msg_comparer.cpp:136-143 | the implicit conversion to int32: in range and the same modulo 2^32 |
| Compare.CompareRepeatedFieldValue | raf/framework/src/protobuf/msg_comparer.cpp:175-270 | the loop stops at the first difference, and the shorter list comes first |
| Compare.CompareFieldValue | raf/framework/src/protobuf/msg_comparer.h:142-153 | repeated or singular comparison of a field |
| Compare.CompareTo | raf/framework/src/protobuf/msg_comparer.cpp:83-113 | the loop over the fields, with null before every message |
| Compare.OrderlessTo | raf/framework/src/protobuf/msg_comparer.cpp:42-77 | the loop over the fields, the sign turned round for flagged fields |
| HashLaws.HornerIsPolynomial | raf/framework/src/protobuf/hash_code.cpp:22-37 | the accumulating loop computes a polynomial in 99989 modulo 2^64 |
| HashLaws.StepInjective | raf/framework/src/protobuf/hash_code.cpp:32-34 | 99989 has an inverse modulo 2^64: one round loses nothing of the accumulator |
| HashLaws.HornerInjective | raf/framework/src/protobuf/hash_code.cpp:32-34 | different accumulators stay different whatever follows |
| HashLaws.OnePartDiffers | raf/framework/src/protobuf/hash_code.cpp:32-34 | lists of parts that differ in one position, any position, hash differently |
| HashLaws.OneFieldDiffers | raf/framework/src/protobuf/hash_code.cpp:22-37 | messages whose field hashes differ at exactly one field have different hash codes |
| HashLaws.MessageIsPolynomial | raf/framework/src/protobuf/hash_code.cpp:22-37 | the hash code in numbers: 41 * 99989^n + field_0 * 99989^(n-1) + ... modulo 2^64 |
| HashLaws.ListIsPolynomial | raf/framework/src/protobuf/hash_code.cpp:39-97 | the hash of a repeated field: element_0 * 99989^(n-1) + ... modulo 2^64 |
| HashLaws.OneElementDiffers | raf/framework/src/protobuf/hash_code.cpp:39-97 | lists of one length that differ at one position hash differently if the two values there do: sub-messages by their hash codes, enums by position, scalars by the library |
| HashLaws.OneValueDiffers | raf/framework/src/protobuf/hash_code.cpp:99-126 | a singular field hashes as its value, set or default, sub-messages by their hash codes |
| HashLaws.EveryValueCounts | raf/framework/src/protobuf/hash_code.cpp:22-126 | messages that differ in one field, and there in one value that hashes differently, have different hash codes |
| HashLaws.SameReadingHash | raf/framework/src/protobuf/hash_code.cpp:22-126 | messages that read the same at any depth have the same hash code, for any scalar hash |
| HashLaws.EqualMessagesHashAlike | raf/framework/src/protobuf/hash_code.cpp:22-126 | the contract of map keys: where the first difference is told apart, compare = 0 implies equal hash codes |
| HashLaws.HashRespectsEqualityIffNarrow | raf/framework/src/protobuf/hash_code.cpp:22-126 | the contract holds for all messages of a type and all scalar hashes without any window exactly if the type has no 64-bit integer field, at any depth |
| HashLaws.EqualMessagesHashApart | raf/framework/src/protobuf/hash_code.cpp:22-37 | two int64 messages that compare equal and hash differently under every scalar hash that tells the numbers apart |
| Hash.HashcodeByRepeatedField | raf/framework/src/protobuf/hash_code.cpp:39-97 | the loop over the elements |
| Hash.HashcodeByField | raf/framework/src/protobuf/hash_code.cpp:99-126 | the hash of one field, read as its default if unset |
| Hash.Hashcode | raf/framework/src/protobuf/hash_code.cpp:22-37 | the loop over the fields; a null message hashes to 0 |
| Loader.LoaderState.Config | raf/samples/load/src/loader.cpp:47-58 | fills the file list and the file-to-store table from the mapper, later lines overwriting |
| Loader.LoaderState.Readline | raf/samples/load/src/loader.cpp:190-215 | the shared cursor: opens, reads a line, closes at the end of the file; codes 0 to 3; the line is changed only by a read |
| Loader.StoreOfFile | raf/samples/load/src/loader.cpp:47-54 | a file has the store of its last mapper line |
| Loader.StoreOf | raf/samples/load/src/loader.cpp:47-54 | the store of a file is that of the last mapper line with its name |
| Loader.SplitJoin | raf/samples/load/src/loader.cpp:213-213 | the lines of a text hold no line break and together with the line breaks give the text |
| Loader.ReadLineTakesNext | raf/samples/load/src/loader.cpp:190-215 | each call hands out the next piece of what remains; it stops only when nothing remains or a file cannot be opened |
| Loader.ReadLineProgress | raf/samples/load/src/loader.cpp:190-215 | a measure over files left, bytes left and the end not yet seen drops on every code 0 or 1 |
| Loader.OneByOneTakesAll | raf/samples/load/src/loader.cpp:190-215 | calling readline until it stops hands out exactly the non-empty lines, in order |
| BatchLoader.FillConserves | raf/samples/load/src/batch_line_loader.cpp:110-130 | the locked loop loses, adds and reorders no line |
| BatchLoader.FillShape | raf/samples/load/src/batch_line_loader.cpp:110-130 | a batch is full or ends with its file, holds no empty line, and every line is counted |
| BatchLoader.FillStops | raf/samples/load/src/batch_line_loader.cpp:110-130 | a locked block makes progress or takes nothing, and stays in one file |
| BatchLoader.TakeTakesNext | raf/samples/load/src/batch_line_loader.cpp:103-144 | one call takes one to batch_size lines of one file, for the store of that file |
| BatchLoader.EveryInterleaving | raf/samples/load/src/batch_line_loader.cpp:76-144 | in every state of every interleaving of any number of threads the batches in lock order are the beginning of what has to be loaded, each is with one thread or sent, the counters are ordered, and the buffer of every thread that is not sending is empty |
| BatchLoader.EverythingIsLoaded | raf/samples/load/src/batch_line_loader.cpp:171-186 | when all threads have ended the batches are exactly the non-empty lines of the files, in the order of the one-line loader, each sent once, the read and write counters agree, and every thread has left with an empty buffer |
| BatchLoader.EverythingIsCounted | raf/samples/load/src/batch_line_loader.cpp:90-92 | if no request fails, a finished load has counted every line that had to be loaded |
| BatchLoader.RecordsAreInserted | raf/samples/load/src/batch_line_loader.cpp:90-92 | the record counter grows by exactly the lines whose requests succeeded |
| BatchLoader.EveryRunEnds | raf/samples/load/src/batch_line_loader.cpp:171-186 | every interleaving ends within a bound, with all threads ended |
| BatchLoader.RunIsBounded | raf/samples/load/src/batch_line_loader.cpp:171-186 | the steps still possible are bounded by the bytes and files left |
| BatchLoader.CompleteIffBatchSize | raf/samples/load/src/batch_line_loader.cpp:126-129 | a finished load is complete exactly if the batch size setting, an int, is positive or there is nothing to load |
| BatchLoader.BatchLineLoader.FillBatch | raf/samples/load/src/batch_line_loader.cpp:110-130 | the do-while loop under the lock |
| BatchLoader.BatchLineLoader.SendBatchLines | raf/samples/load/src/batch_line_loader.cpp:76-101 | the request and the counters |
| BatchLoader.BatchLineLoader.LoadTask | raf/samples/load/src/batch_line_loader.cpp:103-144 | one uninterrupted call, with the buffer of its thread handed in and out, is the three steps of the step system in a row |
| BatchLoader.BatchLineLoader.LoadAll | raf/samples/load/src/batch_line_loader.cpp:175-181 | the loop of a thread, run alone, ends with an empty buffer and nothing left to read |
| BatchLoader.TakeStops | raf/samples/load/src/batch_line_loader.cpp:103-144 | whatever the buffer holds, a call that goes on leaves it empty and makes progress, and one that stops leaves it alone with nothing remaining |
| StandaloneLoader.LinesTakenInOrder | raf/samples/load/src/standalone_loader.cpp:58-83 | after any number of calls the lines taken are the beginning of what has to be loaded |
| StandaloneLoader.LoadTask | raf/samples/load/src/standalone_loader.cpp:58-83 | one call takes at most one line, with the store of its file |
| InClusterLoader.WindowInEveryRun | raf/samples/load/src/incluster_loader.cpp:140-265 | in every run with any number of callers T: open requests plus callers past the check stay within window - 1 + T, so do the requests really outstanding; the counters balance; lines are read in order |
| InClusterLoader.StepBalances | raf/samples/load/src/incluster_loader.cpp:176-265 | each step keeps active + done = counted, and sent = counted + not yet counted |
| InClusterLoader.StepWithinWindow | raf/samples/load/src/incluster_loader.cpp:179-188 | each step keeps the window |
| InClusterLoader.StepInOrder | raf/samples/load/src/incluster_loader.cpp:183-188 | each step keeps the lines in order |
| InClusterLoader.EveryLineIsTriedOnce | raf/samples/load/src/incluster_loader.cpp:228-262 | in every run each line read is with a caller that has still to send it or was tried once; the record counter counts the tried lines that could be parsed, sent or not; the requests are the lines whose send succeeded |
| InClusterLoader.OneCallerCompletesSafely | raf/samples/load/src/incluster_loader.cpp:197-222 | if one sendRequest runs at a time, shutdown happens only after every line was read and every sent request answered |
| InClusterLoader.EveryRunEnds | raf/samples/load/src/incluster_loader.cpp:140-265 | every run ends within a bound, whatever the interleaving; a run that cannot go on has shut the application down exactly if a request is allowed and all files can be opened, and then every line was read and every sent request answered |
| InClusterLoader.RunProgresses | raf/samples/load/src/incluster_loader.cpp:140-265 | until the shutdown there is always a request to be answered, a response to be handled, or a caller that carries the load on |
| InClusterLoader.StepDecreases | raf/samples/load/src/incluster_loader.cpp:179-265 | every step brings the end of the run nearer |
| InClusterLoader.NeverEarlyIff | raf/samples/load/src/incluster_loader.cpp:176-265 | for every input, window and number of callers: no run shuts the application down with a request unanswered exactly if only one sendRequest runs at a time, or no request is allowed, or there are not two lines to send, or some file cannot be opened |
| InClusterLoader.SafeSettingsExactly | raf/samples/load/src/incluster_loader.cpp:176-265 | over all inputs: exactly if only one sendRequest runs at a time or no request is allowed |
| InClusterLoader.UncountedRequest | raf/samples/load/src/incluster_loader.cpp:197-213 | in every other setting a run shuts down early because a request is sent and not yet counted when activeRequest is read |
| InClusterLoader.TwoCallersShutDownEarly | raf/samples/load/src/incluster_loader.cpp:179-213 | if two requests are allowed, so does a run in which a caller acts on a reading of 0 while activeRequest is 1 |
| ActorRegistry.ResolvedOperations | raf/framework/src/idgs/actor/actor_descriptor_mgr.cpp:83-118 | registration of an actor succeeds exactly if every consumed name is its own, registered or in the module; a resolved operation is the first found in the earlier resolution, the in-operations, and the consumed out-operations in name order |
| ActorRegistry.RegistersIff | raf/framework/src/idgs/actor/actor_descriptor_mgr.cpp:89-107 | in terms of entries: exactly if every consumed name is the own name, a registered name or a name in the module |
| ActorRegistry.ResolvedSource | raf/framework/src/idgs/actor/actor_descriptor_mgr.cpp:83-107 | in terms of entries: where a resolved operation comes from: the earlier resolution, else the in-operations, else the out-operations of the first consumed actor that has the name, where a name stands for the actor itself, else a registered actor, else one of the module |
| ActorRegistry.ProviderIsConstant | raf/framework/src/idgs/actor/actor_descriptor_mgr.cpp:95-104 | while the registry grows by actors of the module, the lookup of a consumed name does not change |
| ActorRegistry.RegistrationResult | raf/framework/src/idgs/actor/actor_descriptor_mgr.cpp:28-41 | registering a module, in any order: success exactly if every consumed name is found in the registry as it was or in the module; then the registry is the left-biased union and every actor is resolved against the registry as it was |
| ActorRegistry.ModuleRegistersIff | raf/framework/src/idgs/actor/actor_descriptor_mgr.cpp:28-41 | in terms of entries: when a module can be registered, and which actors are registered then |
| ActorRegistry.OrderDoesNotMatter | raf/framework/src/idgs/actor/actor_descriptor_mgr.cpp:28-41 | two orders of registering the same actors succeed together and then give the same registry and the same resolved operations |
| ActorRegistry.StartAndStop | raf/services/store/src/idgs/store/store_module.cpp:148-218 | registering a module and then unregistering it by name: which actors come in, all or up to the failing one, and which go |
| ActorRegistry.StoppedModule | raf/framework/src/idgs/actor/actor_descriptor_mgr.cpp:28-55 | what that leaves: the registry is restored exactly if no actor name was taken; a failed registration is never taken back by the name of the module; under a name that was taken the actors of the other module go |
| ActorRegistry.RegistrationAdds | raf/framework/src/idgs/actor/actor_descriptor_mgr.cpp:28-41 | a registration adds a prefix of the actors, the whole of them exactly if it succeeds |
| ActorRegistry.ResolvedLookup | raf/framework/src/idgs/actor/actor_descriptor.cpp:67-76 | a lookup among the resolved operations after a registration finds the first operation of the name in the earlier resolution, the in-operations, and the consumed out-operations in name order |
| ActorRegistry.ActorDescriptorMgr.RegisterActorDescriptor | raf/framework/src/idgs/actor/actor_descriptor_mgr.cpp:83-118 | the loop over the consumed names, extending the resolved operations in place |
| ActorRegistry.ActorDescriptorMgr.RegisterModuleDescriptor | raf/framework/src/idgs/actor/actor_descriptor_mgr.cpp:28-41 | registers the actors one by one up to the first failure; the module only if all succeed |
| ActorRegistry.ActorDescriptorMgr.UnRegisterModuleDescriptor | raf/framework/src/idgs/actor/actor_descriptor_mgr.cpp:43-55 | removes the actor names of the registered module of that name |
| OrderedMap.InsertAllLaws | raf/framework/src/idgs/actor/actor_descriptor_mgr.cpp:86-87 | inserting a range is a left-biased union |
| OrderedMap.EraseAllLaws | raf/framework/src/idgs/actor/actor_descriptor_mgr.cpp:51-53 | erasing the names of a range removes exactly those |
| OrderedMap.SameMap | raf/framework/src/idgs/actor/actor_descriptor_mgr.cpp:28-41 | maps in which every lookup agrees are the same |
| OrderedMap.FindsEntry | raf/framework/src/idgs/actor/actor_descriptor_mgr.cpp:121-128 | a lookup finds exactly what an entry of the map holds |
| OrderedMap.KeysInOrder | raf/framework/src/idgs/actor/actor_descriptor_mgr.cpp:31-32 | the entries of a map come in the order of their keys |
| Descriptor.ActorRoundTrip | raf/framework/src/idgs/actor/actor_descriptor.cpp:17-55 | a wrapper comes back from its protobuf message exactly if its operations are kept under their own names |
| Descriptor.ActorNormalises | raf/framework/src/idgs/actor/actor_descriptor.cpp:17-55 | going through a wrapper a second time changes nothing |
| Descriptor.FirstOperationWins | raf/framework/src/idgs/actor/actor_descriptor.cpp:17-37 | of two operations of one name in a message the first wins |
| Descriptor.WrapperHolds | raf/framework/src/idgs/actor/actor_descriptor.cpp:17-35 | what a wrapper made from a message holds: name, description, type, of each kind of operation the first of each name, and the consumed names |
| Descriptor.ModuleHolds | raf/framework/src/idgs/actor/actor_descriptor.cpp:132-139 | what a module made from a message holds |
| Descriptor.ModuleRoundTrip | raf/framework/src/idgs/actor/actor_descriptor.cpp:132-169 | a module comes back exactly if its actors and operations are kept under their own names and, without actors, it has no name and description |
| Descriptor.ModuleNormalises | raf/framework/src/idgs/actor/actor_descriptor.cpp:132-169 | a protobuf module is normalised exactly if it has an actor or neither name nor description |
| Descriptor.ActorDescriptor.constructor | raf/framework/src/idgs/actor/actor_descriptor.cpp:17-35 | the loops over the operations and consumed names |
| Descriptor.ActorDescriptor.ToActorDescriptor | raf/framework/src/idgs/actor/actor_descriptor.cpp:37-55 | the protobuf message of a wrapper |
| Descriptor.ModuleDescriptor.constructor | raf/framework/src/idgs/actor/actor_descriptor.cpp:132-139 | the loop over the actors, each a new object under its own name |
| Descriptor.ModuleDescriptor.ToModuleDescriptor | raf/framework/src/idgs/actor/actor_descriptor.cpp:161-169 | the loop over the actors that also writes name and description |
| Variant.EveryRunIsSound | raf/framework/src/protobuf/pbvariant.cpp:99-191 | in every run of construction, copy, move, assignment and destruction nothing is deleted twice or read after deletion, no string has two owners, and the live strings are exactly the owned ones and those a raw pointer was assigned over |
| Variant.EverythingIsDeleted | raf/framework/src/protobuf/pbvariant.cpp:131-133 | without raw pointer assignment, when all variants are destroyed no string is left |
| Variant.FaultIffNull | raf/framework/src/protobuf/pbvariant.cpp:115-191 | an operation goes wrong exactly if it copies from, or assigns a string to, a variant whose string is gone |
| Variant.OthersUnchanged | raf/framework/src/protobuf/pbvariant.cpp:115-191 | an operation changes no variant but its target and the one it moves a string out of |
| Variant.TargetReads | raf/framework/src/protobuf/pbvariant.cpp:102-191 | the target holds what it was given: the value of the source, the string, or the scalar |
| Variant.NullFlag | raf/framework/src/protobuf/pbvariant.cpp:99-191 | which variants there are after an operation, and their null flags: copying and moving into a new variant clear the flag, assignment takes it over, assigning a string leaves it |
| Variant.PbVariant.Copy | raf/framework/src/protobuf/pbvariant.cpp:115-121 | copies the string into a new one |
| Variant.PbVariant.Move | raf/framework/src/protobuf/pbvariant.cpp:122-129 | takes the string over and leaves NULL |
| Variant.PbVariant.FreeString | raf/framework/src/protobuf/pbvariant.cpp:272-277 | deletes the string once |
| Variant.PbVariant.AssignString | raf/framework/src/protobuf/pbvariant.cpp:142-150 | overwrites the string in place or takes a new one |
| Variant.PbVariant.AssignRaw | raf/framework/src/protobuf/pbvariant.cpp:151-159 | takes the pointer and deletes nothing |
| Variant.PbVariant.AssignScalar | raf/framework/src/protobuf/pbvariant.cpp:54-60 | deletes the string, then holds the scalar |
| Variant.PbVariant.AssignCopy | raf/framework/src/protobuf/pbvariant.cpp:160-175 | deletes its own string before copying; nothing on self assignment |
| Variant.PbVariant.AssignMove | raf/framework/src/protobuf/pbvariant.cpp:176-191 | deletes its own string before taking the other over; nothing on self assignment |
| PrototypeCache.CacheIsInvisible | raf/framework/src/protobuf/message_helper.cpp:138-170 | if no type is in two pools and only lookups fill the cache, then after every run, with any races between finding, searching and inserting, a lookup gives what the pools give, and a miss was returned only for a type in no pool when the call began |
| PrototypeCache.StepStaysInvisible | raf/framework/src/protobuf/message_helper.cpp:45-177 | from a state in which every lookup gives what the pools give, a step keeps it so exactly if it is harmless: the importer takes no type cached with another prototype, nor do the compiled-in types unless the importer has the type, and no lookup inserts what was overtaken |
| PrototypeCache.BuildStaysInvisible | raf/framework/src/protobuf/message_helper.cpp:45-53 | building a file at run time is always harmless |
| PrototypeCache.NeverSeenIffHarmless | raf/framework/src/protobuf/message_helper.cpp:45-177 | over every run, with any races, the cache is invisible in every state exactly if every step is harmless |
| PrototypeCache.InvisibleIffHarmless | raf/framework/src/protobuf/message_helper.cpp:138-170 | for a cache filled by lookups and an importer with prototypes of its own: it is invisible at the end of a run exactly if every step was harmless |
| PrototypeCache.SeenForGood | raf/framework/src/protobuf/message_helper.cpp:138-170 | once a lookup differs from the pools it does so for good |
| PrototypeCache.CachedForGood | raf/framework/src/protobuf/message_helper.cpp:138-177 | whatever happens, a cached name keeps its prototype |
| PrototypeCache.MissesAreNotCached | raf/framework/src/protobuf/message_helper.cpp:161-168 | a name gets into the cache only at a step in which a lookup of that very name inserts what it found, in some pool, or addPbPrototype is called with it |
| PrototypeCache.ImportIsFound | raf/framework/src/protobuf/message_helper.cpp:138-170 | after an import the pools give the imported types whatever the other pools hold; a file with a type that is there is refused whole |
| PrototypeCache.LinkIsFound | raf/framework/src/protobuf/message_helper.cpp:138-170 | compiled-in types are found unless the importer has them |
| PrototypeCache.BuildIsFound | raf/framework/src/protobuf/message_helper.cpp:45-53 | the types of a file built at run time are found unless another pool has them; a file is built once |
| PrototypeCache.ImportGoesUnseen | raf/framework/src/protobuf/message_helper.cpp:141-168 | a type built at run time, looked up, and then imported: the cache goes on giving the old prototype, which the pools no longer give |
| PrototypeCache.MessageHelper.GetPbPrototype | raf/framework/src/protobuf/message_helper.cpp:138-170 | one uninterrupted lookup, which makes later lookups give the same |
| PrototypeCache.MessageHelper.AddPbPrototype | raf/framework/src/protobuf/message_helper.cpp:172-177 | inserts unless the name is cached or the message is null |
| PrototypeCache.MessageHelper.RegisterDynamicMessage | raf/framework/src/protobuf/message_helper.cpp:45-53 | builds a file unless it has been built |
| PrototypeCache.MessageHelper.IsMessageRegistered | raf/framework/src/protobuf/message_helper.cpp:179-181 | whether a lookup finds it, and lookups stay as they were |

## Left out

- JsonParser.Message: the parser updates a message object in place, but a sub-message is parsed as an object of its own whose value is then stored in its parent; that the two are one object in the source (aliasing of sub-messages) is not captured.
- JsonLaws.RoundTrip: speaks of message values, not of protobuf's unknown fields and extensions, which the printer does not visit.
- JsonLaws.PrintThenParse: assumes that the C++ library writes every finite double as a JSON number, and that stored enum numbers belong to the enum; printing an unset or unknown enum value is not modelled.
- JsonReader: replaces yajl; a string is rejected by the octet patterns of section 3 of RFC 3629, without a search for overlong forms; the treatment of surrogate halves in escapes, the depth limit and the error texts are not modelled. Text is a sequence of characters, one for each byte of the source's strings.
- JsonMessage.Convert: doubles and floats are reals with the library's printing and reading as parameters; infinities and NaN are left out, and a cast of a double out of the range of an integer type, undefined in C++, wraps around.
- Reading the JSON text from a file: input and output.
- Compare: comparison of messages of two different types, with its conversions through PbVariant, is not modelled; both messages have one schema.
- Compare.CompareScalar: the subtraction of signed integers wraps around, where C++ leaves an overflow undefined; so does the negation in `orderless`. The unsigned fields are not affected.
- CompareLaws.CompareIsOrder: types with repeated message fields are excluded, because the source reads such a field with the getter for singular fields; recursive types are excluded, because reading their unset fields does not end; reals stand for doubles without NaN.
- Strings.StringCompare: gives the sign of `std::string::compare`, not its magnitude.
- HashLaws.EqualMessagesHashAlike: `std::hash` is any function of the value; a repeated enum hashes and compares descriptor pointers, which are modelled by their position in the enum.
- BatchLoader.EverythingIsLoaded: a file that cannot be opened ends the load for all threads; what has to be loaded is counted up to it. The counters start at 0, though the source never initialises two of them.
- BatchLoader.LinesLoaded: a negative batch size is taken to end the program before a line is read, because reserving that many lines throws.
- BatchLoader.BatchLineLoader.SendBatchLines: the request is sent or not; timeouts, retries and the throughput log are not modelled.
- Loader.LoaderState.Config: the store descriptors that `config` builds when lines are parsed are not modelled.
- InClusterLoader.WindowInEveryRun: store descriptors, `parseLine` (an outcome parameter) and the 15 second timer that shuts down when no response comes are not modelled; every request that was sent is answered at some time.
- InClusterLoader.TwoCallersShutDownEarly: shutdown is a flag; what the application does then is not modelled.
- Descriptor: protobuf's presence bits of the optional type and description are not modelled, only their values. Operations hold values, while the source shares operation objects between wrappers.
- ActorRegistry.RegistrationResult: asks that no descriptor object is in a module twice, which renaming an actor between two insertions could bring about.
- ActorRegistry.ActorDescriptorMgr.RegisterActorDescriptor: the registry is not safe for threads in the source, and is modelled for one thread.
- `loadModuleActorDescriptor`, `toString` and the log: easy members or input and output.
- Variant.EveryRunIsSound: an address is never used twice, and a raw pointer is fresh or NULL. Casts, comparisons and the hash of variants are left out.
- PrototypeCache.InvisibleIffHarmless: assumes that the prototypes the importer makes are objects of their own, as each factory makes its own.
- PrototypeCache.CacheIsInvisible: a file's types enter a pool together or not at all; the files a proto file imports, and unloading, are not modelled.
- Setting and getting message fields by name through variants (`message_helper.cpp` below the cache): easy members.
- Sockets, actors' message transport, application start and stop, and the web console: no part of this model.
