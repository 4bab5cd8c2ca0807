# japlscript core, modelled in Dafny

japlscript is a Java bridge to AppleScript. It encodes Java values as AppleScript
text, sends scripts to the `osascript` command and decodes the text that comes back.
This project models the parts of that bridge that carry the logic, and proves
properties about them:

- **`TypeClasses`** (`types/TypeClass.java`) models the descriptor of a remote class.
  A descriptor has a name, an optional code such as `«class capp»` and a superclass.
  Descriptors are interned in a process-wide registry under both their name and their
  code. Equality is loose: a name may match a code. `isAssignableFrom` and
  `isInstance` walk the superclass chain. The registry is a class with a `map` field,
  and the walks are `while` loops proved against a chain function.
- **`DataLiteral`** (`types/Data.java`) models the decoding of a `«data HHHH…»`
  reference into a fresh byte array, two hex characters at a time. A pair that
  `Integer.parseInt` rejects is skipped.
- **`LongCodec`** and **`BooleanCodec`** (`types/Long.java`, `types/Boolean.java`)
  model text encoding and decoding through `Long.valueOf`/`toString` and
  `Boolean.valueOf`/`toString`. Both round trips are proved.
- **`Osascript`** (`execution/Osascript.java`) models two things. The first is how
  `executeImpl` turns the session, exit status and both stream pumps into a returned
  value or a thrown failure. The second is `ReaderPump.run`, which drains a stream
  chunk by chunk, trims the text and records a read failure.
- **`ParameterSignatures`** (`generation/ParameterSignature.java`) models a generated
  method's parameter. The constructor sorts the caller's annotation array in place by
  text. The model also covers `equals`/`hashCode`, `toString` and the Javadoc line.
- **`JavaLang`** holds the Java platform behaviour the others rely on: `byte`/`int`/`long`
  ranges, 32-bit wrap-around, the low byte kept by `OutputStream.write(int)` and
  `String.trim`.

Java `null` is `None` of an `Option` for the codec arguments, the type-class code and
application reference, the signature's name, type and description, and the pump's
value and failure. A superclass, a byte array and the signature's annotation array
are nullable references (`TypeClass?`, `array?<Int8>`, `array?<string>`), as in the
source. Annotation elements, names of type classes, and the object references passed
to the `TypeClass` and `Data` constructors are non-null strings. Exceptions are `Err`
results or `Thrown` outcomes. Each codec's shared instance is a one-value datatype.

Two behaviours of the code are worth stating plainly:

- On a read failure, `ReaderPump.run` (Osascript.java:129-132) discards the output
  read so far and stores the exception's text as the value. `ReaderPump.Run` states
  this.
- `Data` (Data.java:39) decodes every character from index 6 up to the last one,
  which it drops unchecked. No type tag after `«data ` is skipped:
  `DataLiteral.DecodesAllFourBytes` shows all four bytes of `«data ABCDBBBB»` being
  kept, and `DataLiteral.UncheckedClosingMark` shows a text without a closing mark
  losing its last character instead of failing.

## Model

| member | source | states |
|---|---|---|
| JavaLang.LowByte | japlscript-java/src/main/java/com/tagtraum/japlscript/types/Data.java:43 | the byte written is congruent to the parsed value mod 256, and values 0..255 map to their signed reading |
| JavaLang.WrapInt32 | japlscript-java/src/main/java/com/tagtraum/japlscript/generation/ParameterSignature.java:52-58 | Java `int` arithmetic: congruent mod 2^32 and the identity inside the `int` range |
| JavaLang.HashStep | japlscript-java/src/main/java/com/tagtraum/japlscript/generation/ParameterSignature.java:55-56 | a hash step `31·h + c` in `int` arithmetic stays congruent mod 2^32 to the same step on the exact value |
| JavaLang.Trim | japlscript-java/src/main/java/com/tagtraum/japlscript/execution/Osascript.java:128 | the result is an infix of the input, only characters up to the space are removed, and neither end of the result is such a character |
| JavaLang.TrimIdempotent | japlscript-java/src/main/java/com/tagtraum/japlscript/execution/Osascript.java:128 | trimming twice is trimming once |
| TypeClasses.TypeClass.Create | japlscript-java/src/main/java/com/tagtraum/japlscript/types/TypeClass.java:55-59 | the private constructor stores name, code, application and superclass, and keeps the chain finite |
| TypeClasses.TypeClass.constructor | japlscript-java/src/main/java/com/tagtraum/japlscript/types/TypeClass.java:30-42 | the name is the registry's resolution of the reference; a registered reference takes the stored code and superclass; an unregistered one is its own code exactly when it starts with `«` |
| TypeClasses.TypeClass.ToString | japlscript-java/src/main/java/com/tagtraum/japlscript/types/TypeClass.java:143-149 | the text starts with the name; it is the name alone exactly when the code equals the name, and otherwise a `/` follows the name and then the code, or `null` when there is none |
| TypeClasses.TypeClass.Keys | japlscript-java/src/main/java/com/tagtraum/japlscript/types/TypeClass.java:137-140 | the aliases a class answers to: its name and, when present, its code, and nothing else |
| TypeClasses.TypeClass.Equals | japlscript-java/src/main/java/com/tagtraum/japlscript/types/TypeClass.java:132-141 | two type classes are equal exactly when their name/code alias sets share an element |
| TypeClasses.TypeClass.EqualsObject | japlscript-java/src/main/java/com/tagtraum/japlscript/types/TypeClass.java:132-141 | an object is equal exactly when it is a type class sharing an alias; any other object is unequal |
| TypeClasses.TypeClass.HashCode | japlscript-java/src/main/java/com/tagtraum/japlscript/types/TypeClass.java:126-130 | every type class hashes to 1 |
| TypeClasses.TypeClass.Chain | japlscript-java/src/main/java/com/tagtraum/japlscript/types/TypeClass.java:73-75 | the superclass chain starts at the class, links each entry to its superclass and ends at a class without one |
| TypeClasses.TypeClass.IsAssignableFrom | japlscript-java/src/main/java/com/tagtraum/japlscript/types/TypeClass.java:99-106 | true exactly when the argument is non-null and some class on its chain equals this one |
| TypeClasses.TypeClass.IsInstance | japlscript-java/src/main/java/com/tagtraum/japlscript/types/TypeClass.java:115-124 | true exactly when the object is a reference whose type class is non-null and has a chain entry equal to this class |
| TypeClasses.ChainMeetsStep | japlscript-java/src/main/java/com/tagtraum/japlscript/types/TypeClass.java:102-105 | one step of the walk: the chain meets the target at its head or further up |
| TypeClasses.EqualsReflexive | japlscript-java/src/main/java/com/tagtraum/japlscript/types/TypeClass.java:132-141 | every type class equals itself |
| TypeClasses.EqualsSymmetric | japlscript-java/src/main/java/com/tagtraum/japlscript/types/TypeClass.java:132-141 | the four alias matches make `equals` symmetric |
| TypeClasses.EqualsIsNotTransitive | japlscript-java/src/main/java/com/tagtraum/japlscript/types/TypeClass.java:132-141 | three classes where a equals b and b equals c, yet a does not equal c |
| TypeClasses.HashCodeConsistent | japlscript-java/src/main/java/com/tagtraum/japlscript/types/TypeClass.java:126-130 | equal type classes have equal hash codes |
| TypeClasses.AssignableFromItself | japlscript-java/src/main/java/com/tagtraum/japlscript/types/TypeClass.java:99-106 | every class is assignable from itself |
| TypeClasses.ChainSuffix | japlscript-java/src/main/java/com/tagtraum/japlscript/types/TypeClass.java:103 | the chain of an ancestor is the rest of the descendant's chain |
| TypeClasses.AssignableThroughSuperclass | japlscript-java/src/main/java/com/tagtraum/japlscript/types/TypeClass.java:99-106 | a class is assignable to whatever any of its ancestors is assignable to |
| TypeClasses.Registry.constructor | japlscript-java/src/main/java/com/tagtraum/japlscript/types/TypeClass.java:21 | the registry starts empty |
| TypeClasses.Registry.LookupRefName | japlscript-java/src/main/java/com/tagtraum/japlscript/types/TypeClass.java:44-47 | a registered key resolves to its class's name, and so does a code; an unregistered key resolves to itself |
| TypeClasses.Registry.GetInstance | japlscript-java/src/main/java/com/tagtraum/japlscript/types/TypeClass.java:61-71 | a registered name returns the stored instance and changes nothing; otherwise a fresh instance is returned and stored under name and code exactly when a code is given and no application scopes it; the registry invariant is kept |
| TypeClasses.InternedUnderBothKeys | japlscript-java/src/main/java/com/tagtraum/japlscript/types/TypeClass.java:61-71 | after an unscoped registration, asking for the code returns the same instance, whatever code, application and superclass the second call passes |
| DataLiteral.HexDigit | japlscript-java/src/main/java/com/tagtraum/japlscript/types/Data.java:43 | a hex digit's value lies in 0..15 |
| DataLiteral.ParsePair | japlscript-java/src/main/java/com/tagtraum/japlscript/types/Data.java:43 | two hex digits give 16·high+low; `-` and a digit give minus the digit, `+` and a digit give the digit; any other pair with a non-hex character is rejected; values lie in -15..255 |
| DataLiteral.DecodeLiteral | japlscript-java/src/main/java/com/tagtraum/japlscript/types/Data.java:34-50 | a non-data reference leaves null; a data literal fails exactly when its body is missing or has odd length, and otherwise yields the decoded pairs of characters 6..n-1, the last character being dropped unchecked |
| DataLiteral.DecodeHex | japlscript-java/src/main/java/com/tagtraum/japlscript/types/Data.java:39-48 | the loop fails exactly on an odd-length body and otherwise yields the pair decoding |
| DataLiteral.Data.constructor | japlscript-java/src/main/java/com/tagtraum/japlscript/types/Data.java:34-50 | a data literal yields a fresh array holding the decoded bytes; any other reference leaves `data` null |
| DataLiteral.Data.Empty | japlscript-java/src/main/java/com/tagtraum/japlscript/types/Data.java:25-27 | the private constructor has null references and null data |
| DataLiteral.Data.SetData | japlscript-java/src/main/java/com/tagtraum/japlscript/types/Data.java:56-62 | `getData` returns the very array `setData` stored |
| DataLiteral.Data.GetData | japlscript-java/src/main/java/com/tagtraum/japlscript/types/Data.java:56-58 | returns the stored array itself |
| DataLiteral.DataStatics.constructor | japlscript-java/src/main/java/com/tagtraum/japlscript/types/Data.java:22 | the shared instance is a fresh empty `Data` |
| DataLiteral.DataStatics.GetInstance | japlscript-java/src/main/java/com/tagtraum/japlscript/types/Data.java:52-54 | `getInstance` returns the shared instance |
| DataLiteral.PairsLength | japlscript-java/src/main/java/com/tagtraum/japlscript/types/Data.java:40-48 | decoding yields at most one byte per pair |
| DataLiteral.PairsConcat | japlscript-java/src/main/java/com/tagtraum/japlscript/types/Data.java:41-47 | decoding runs left to right: the bytes of a concatenation of whole pairs are the bytes of each part in order |
| DataLiteral.RejectedPairSkipped | japlscript-java/src/main/java/com/tagtraum/japlscript/types/Data.java:42-46 | a pair `parseInt` rejects contributes nothing and the rest is decoded unchanged |
| DataLiteral.PairsPrefixStep | japlscript-java/src/main/java/com/tagtraum/japlscript/types/Data.java:41-47 | one more turn of the loop appends the bytes of pair `i` to those of the pairs before it |
| DataLiteral.PairsOfHexDigits | japlscript-java/src/main/java/com/tagtraum/japlscript/types/Data.java:41-47 | on a body of hex digits, byte k is the signed low byte of characters 2k and 2k+1 |
| DataLiteral.DecodesAllFourBytes | japlscript-java/src/main/java/com/tagtraum/japlscript/types/Data.java:38-48 | `«data ABCDBBBB»` decodes to the four bytes AB CD BB BB |
| DataLiteral.SignedPairIsKept | japlscript-java/src/main/java/com/tagtraum/japlscript/types/Data.java:43 | the pair `-1` parses and is written as byte 0xFF |
| DataLiteral.UncheckedClosingMark | japlscript-java/src/main/java/com/tagtraum/japlscript/types/Data.java:39 | `«data ABC` (no closing mark) decodes to the single byte AB: the last character is dropped whatever it is |
| LongCodec.Digits | japlscript-runtime/src/main/java/com/tagtraum/japlscript/types/Long.java:37 | the decimal digits of a number: non-empty, digits only, no leading zero |
| LongCodec.Decode | japlscript-runtime/src/main/java/com/tagtraum/japlscript/types/Long.java:28-31 | succeeds exactly on a non-null optionally signed numeral whose value is in the `long` range, and returns that value |
| LongCodec.Encode | japlscript-runtime/src/main/java/com/tagtraum/japlscript/types/Long.java:33-38 | null encodes as `null`; a value's text starts with `-` exactly when it is negative |
| LongCodec.DigitsRoundTrip | japlscript-runtime/src/main/java/com/tagtraum/japlscript/types/Long.java:28-38 | reading back the digits of n gives n |
| LongCodec.LeadingDigitPositive | japlscript-runtime/src/main/java/com/tagtraum/japlscript/types/Long.java:30 | digits without a leading zero denote a positive number |
| LongCodec.DigitsOfValue | japlscript-runtime/src/main/java/com/tagtraum/japlscript/types/Long.java:28-38 | digits without a leading zero are exactly what `Digits` yields for their value |
| LongCodec.RoundTrip | japlscript-runtime/src/main/java/com/tagtraum/japlscript/types/Long.java:28-38 | decoding the encoding of any `long`, the smallest included, gives it back |
| LongCodec.CanonicalRoundTrip | japlscript-runtime/src/main/java/com/tagtraum/japlscript/types/Long.java:28-38 | canonical text that decodes encodes back to the same text |
| LongCodec.DecodesNegative | japlscript-runtime/src/main/java/com/tagtraum/japlscript/types/Long.java:28-31 | `-123` decodes to -123 |
| LongCodec.GetInstance | japlscript-runtime/src/main/java/com/tagtraum/japlscript/types/Long.java:23-25 | returns the shared instance |
| BooleanCodec.EqualsIgnoreCase | japlscript-runtime/src/main/java/com/tagtraum/japlscript/types/Boolean.java:30 | `equalsIgnoreCase` against a lower-case word: equal lengths and each pair of characters equal, equal in upper case or equal in lower case |
| BooleanCodec.Decode | japlscript-runtime/src/main/java/com/tagtraum/japlscript/types/Boolean.java:28-31 | only a non-null four-character text decodes to true; `true` and `TRUE` do, `false` does not |
| BooleanCodec.Encode | japlscript-runtime/src/main/java/com/tagtraum/japlscript/types/Boolean.java:33-38 | the text is `null` exactly for null, `true` exactly for true, and `false` otherwise |
| BooleanCodec.RoundTrip | japlscript-runtime/src/main/java/com/tagtraum/japlscript/types/Boolean.java:28-38 | decoding the encoding of a boolean gives it back |
| BooleanCodec.NullDecodesToFalse | japlscript-runtime/src/main/java/com/tagtraum/japlscript/types/Boolean.java:28-38 | null encodes as `null`, which decodes to false |
| BooleanCodec.DecodeIffCaseVariant | japlscript-runtime/src/main/java/com/tagtraum/japlscript/types/Boolean.java:28-31 | decoding is true for exactly the mixed-case spellings of `true` |
| BooleanCodec.GetInstance | japlscript-runtime/src/main/java/com/tagtraum/japlscript/types/Boolean.java:23-25 | returns the shared instance |
| Osascript.Classify | japlscript-java/src/main/java/com/tagtraum/japlscript/execution/Osascript.java:84-97 | returns standard output exactly when neither pump failed and the exit status is 0; a standard-error pump failure wins; a non-zero exit throws a bad-scripting-addition failure exactly for a recognised non-empty message, and otherwise a script failure carrying the script and the message or `Unknown Error` |
| Osascript.ExecuteImpl | japlscript-java/src/main/java/com/tagtraum/japlscript/execution/Osascript.java:43-98 | a compiling session whose script compiles returns the compiled result; every other case is the classification of the subprocess run |
| Osascript.ScriptFailureCarriesScript | japlscript-java/src/main/java/com/tagtraum/japlscript/execution/Osascript.java:86-96 | a failed run with an unrecognised or empty message throws a script failure that carries the script |
| Osascript.Reader.constructor | japlscript-java/src/main/java/com/tagtraum/japlscript/execution/Osascript.java:55-56 | a stream starts open and holds its chunks and its eventual failure |
| Osascript.Reader.Read | japlscript-java/src/main/java/com/tagtraum/japlscript/execution/Osascript.java:125 | `read` delivers the next chunk; once the chunks run out it reports the end of the stream or the stream's failure |
| Osascript.Reader.Close | japlscript-java/src/main/java/com/tagtraum/japlscript/execution/Osascript.java:135 | closing leaves the remaining chunks and marks the stream closed |
| Osascript.ReaderPump.constructor | japlscript-java/src/main/java/com/tagtraum/japlscript/execution/Osascript.java:107-109 | a new pump has no value and no failure |
| Osascript.ReaderPump.Run | japlscript-java/src/main/java/com/tagtraum/japlscript/execution/Osascript.java:119-140 | the stream is always closed; at its end the value is all chunks in order, trimmed; on a read failure the value is the exception's text and the exception is recorded; either way the stream is drained |
| Osascript.ReaderPump.GetValue | japlscript-java/src/main/java/com/tagtraum/japlscript/execution/Osascript.java:111-113 | returns the stored value |
| Osascript.ReaderPump.GetIOException | japlscript-java/src/main/java/com/tagtraum/japlscript/execution/Osascript.java:115-117 | returns the recorded failure |
| Osascript.PumpStream | japlscript-java/src/main/java/com/tagtraum/japlscript/execution/Osascript.java:119-140 | a stream that ends normally leaves its trimmed concatenation and no failure |
| ParameterSignatures.AtMost | japlscript-java/src/main/java/com/tagtraum/japlscript/generation/ParameterSignature.java:27 | `compareTo(a, b) <= 0`: holds exactly when `a` is a prefix of `b` or has the smaller character at the first index where they differ |
| ParameterSignatures.AtMostReflexive | japlscript-java/src/main/java/com/tagtraum/japlscript/generation/ParameterSignature.java:27 | the text order is reflexive |
| ParameterSignatures.AtMostTotal | japlscript-java/src/main/java/com/tagtraum/japlscript/generation/ParameterSignature.java:27 | any two texts are comparable |
| ParameterSignatures.AtMostTransitive | japlscript-java/src/main/java/com/tagtraum/japlscript/generation/ParameterSignature.java:27 | the text order is transitive |
| ParameterSignatures.AtMostAntisymmetric | japlscript-java/src/main/java/com/tagtraum/japlscript/generation/ParameterSignature.java:27 | texts at most each other are equal |
| ParameterSignatures.AdjacentChain | japlscript-java/src/main/java/com/tagtraum/japlscript/generation/ParameterSignature.java:27 | in a sequence whose neighbours are in order, any earlier text is at most any later one |
| ParameterSignatures.AdjacentSortedIsSorted | japlscript-java/src/main/java/com/tagtraum/japlscript/generation/ParameterSignature.java:27 | neighbours in order means sorted |
| ParameterSignatures.SortedHeadIsLeast | japlscript-java/src/main/java/com/tagtraum/japlscript/generation/ParameterSignature.java:27 | the first text of a sorted sequence is at most every text it holds |
| ParameterSignatures.SortedTail | japlscript-java/src/main/java/com/tagtraum/japlscript/generation/ParameterSignature.java:27 | the rest of a sorted sequence is sorted and holds one copy fewer of the first text |
| ParameterSignatures.SortedSameHead | japlscript-java/src/main/java/com/tagtraum/japlscript/generation/ParameterSignature.java:27 | two sorted rearrangements of the same non-empty texts start with the same text |
| ParameterSignatures.SortedPermutationUnique | japlscript-java/src/main/java/com/tagtraum/japlscript/generation/ParameterSignature.java:27 | two sorted rearrangements of the same texts are the same sequence |
| ParameterSignatures.SwapStep | japlscript-java/src/main/java/com/tagtraum/japlscript/generation/ParameterSignature.java:27 | swapping an out-of-order pair moves the insertion point left and keeps the texts |
| ParameterSignatures.SortByText | japlscript-java/src/main/java/com/tagtraum/japlscript/generation/ParameterSignature.java:26-28 | the array ends sorted by text and holds the same texts as before |
| ParameterSignatures.ParameterSignature.constructor | japlscript-java/src/main/java/com/tagtraum/japlscript/generation/ParameterSignature.java:24-32 | keeps the caller's array itself, sorted in place and a rearrangement of what it held, and stores name, type and description |
| ParameterSignatures.ParameterSignature.ToJavadoc | japlscript-java/src/main/java/com/tagtraum/japlscript/generation/ParameterSignature.java:34-37 | the line starts with ` * @param ` and the name; it is exactly that when there is no description, and otherwise a space and the description follow |
| ParameterSignatures.ParameterSignature.ToString | japlscript-java/src/main/java/com/tagtraum/japlscript/generation/ParameterSignature.java:60-69 | each annotation followed by a space, in stored order, then the type, a space and the name |
| ParameterSignatures.SpacedAppend | japlscript-java/src/main/java/com/tagtraum/japlscript/generation/ParameterSignature.java:63-65 | appending one annotation appends its text and one space |
| ParameterSignatures.ParameterSignature.Equals | japlscript-java/src/main/java/com/tagtraum/japlscript/generation/ParameterSignature.java:39-50 | equal exactly when the other object is a signature with the same annotation texts, name and type; the identity shortcut agrees with this |
| ParameterSignatures.ParameterSignature.HashCode | japlscript-java/src/main/java/com/tagtraum/japlscript/generation/ParameterSignature.java:52-58 | congruent mod 2^32 to 961·(annotations hash) + 31·(name hash) + (type hash), null fields hashing to 0 |
| ParameterSignatures.PolySnoc | japlscript-java/src/main/java/com/tagtraum/japlscript/generation/ParameterSignature.java:55-56 | one more step of the 31-multiplier hash appends one term to the polynomial |
| ParameterSignatures.StringHash | japlscript-java/src/main/java/com/tagtraum/japlscript/generation/ParameterSignature.java:55-56 | `String.hashCode`: congruent mod 2^32 to the sum of c[i]·31^(n-1-i) |
| ParameterSignatures.ElementsHash | japlscript-java/src/main/java/com/tagtraum/japlscript/generation/ParameterSignature.java:54 | `Arrays.hashCode`: congruent mod 2^32 to 31^n plus the 31-polynomial of the elements' hashes |
| ParameterSignatures.EqualsReflexive | japlscript-java/src/main/java/com/tagtraum/japlscript/generation/ParameterSignature.java:41 | a signature equals itself |
| ParameterSignatures.EqualsOnlySignatures | japlscript-java/src/main/java/com/tagtraum/japlscript/generation/ParameterSignature.java:42 | a signature equals neither null nor an object of another class |
| ParameterSignatures.EqualsSymmetric | japlscript-java/src/main/java/com/tagtraum/japlscript/generation/ParameterSignature.java:39-50 | `equals` is symmetric |
| ParameterSignatures.EqualsIgnoresDescription | japlscript-java/src/main/java/com/tagtraum/japlscript/generation/ParameterSignature.java:44-49 | signatures that agree on annotations, name and type are equal whatever their descriptions |
| ParameterSignatures.HashCodeConsistent | japlscript-java/src/main/java/com/tagtraum/japlscript/generation/ParameterSignature.java:52-58 | equal signatures have equal hash codes |
| ParameterSignatures.EqualsUpToAnnotationOrder | japlscript-java/src/main/java/com/tagtraum/japlscript/generation/ParameterSignature.java:24-50 | after the constructor's sort, the order in which annotations were passed does not affect equality |

## Left out

- Spawning `osascript`, writing the script in MacRoman, the thread pool and waiting for
  the process (Osascript.java:50-65) are left out. The exit status and both joined pump
  states are parameters of `Osascript.Classify`.
- The `InterruptedException` and `ExecutionException` paths while waiting or joining
  (Osascript.java:63-78) are left out. They wrap a thread failure, and threads are not
  modelled.
- `Session.getSession()`, `Osacompile.compile` and `CompiledScript.execute` are
  parameters of `Osascript.ExecuteImpl`. So is
  `BadScriptingAdditionException.isBadScriptingAdditionMessage`. None of them is part of
  this model.
- `Osascript.Reader` stands in for `java.io.Reader`. A chunk is whatever one `read`
  returns, so the 1 KB buffer is not modelled. A failure while closing is logged and
  ignored in the source, so it is not modelled.
- Logging (SLF4J) is left out everywhere.
- `synchronized` blocks and methods are left out because concurrency is not modelled.
  The registry is a single object that callers pass in.
- `TypeClasses.TypeClass.constructor`: object references and names are non-null
  strings. A null name makes `equals` throw, and a null reference makes the
  constructor throw.
- `TypeClasses.Registry.GetInstance`: the name is a non-null string. The source
  checks for a null name itself (TypeClass.java:65): `getInstance(null, …)` finds no
  entry and returns a fresh instance that is never registered. That case is not
  modelled.
- `ReferenceImpl` is not part of this model. A reference's type class is the
  `declared` field of `TypeClasses.Object`.
- `TypeClasses.TypeClass.IsAssignableFrom` and `IsInstance` require a finite
  superclass chain. A cyclic chain would make the Java loop run forever when no class
  matches.
- `DataLiteral.Data.constructor` requires a reference that decodes. When the text
  ends right after `«data ` (fewer than seven characters) or the body has odd length,
  `substring` throws; `DataLiteral.DecodeLiteral` models that case as `Err`. A null
  reference, which makes the constructor throw, is not modelled.
- `ParameterSignatures.SortByText`: annotation elements are non-null texts. In an
  array of two or more annotations, a null element makes the comparator passed to
  `Arrays.sort` (ParameterSignature.java:27) throw, and that failure is not modelled.
- `DataLiteral.HexDigit` and `LongCodec.IsDigit` accept ASCII digits only.
  `Character.digit` and `Long.parseLong` also accept other Unicode digits, and
  `Character.digit(c, 16)` (so `Integer.parseInt` at Data.java:43) also accepts the
  fullwidth Latin letters A–F and a–f (U+FF21–U+FF26, U+FF41–U+FF46) as 10–15, so a
  pair such as `ＡＢ` is a byte in the source but is skipped by `DataLiteral.Pairs`.
- `BooleanCodec.EqualsIgnoreCase` uses the ASCII case mapping, not Java's Unicode
  `Character.toUpperCase`/`toLowerCase`, and is stated for an all-lower-case ASCII word,
  the only kind `parseBoolean` compares against.
- Java `char` is a UTF-16 code unit. The model uses Dafny's `char` and does not
  model surrogate pairs.
- `AnnotationSignature` is not part of this model. Each annotation is represented by
  its `toString` text, and its `equals`/`hashCode` are taken to be those of that text.
- `Arrays.sort` is a stable merge sort, which `ParameterSignatures.SortByText` replaces
  with a stable insertion sort. `SortedPermutationUnique` shows that any sort yields
  the same sequence of texts.
- `BooleanCodec.Decode`: its own contract states only the four-character bound and
  three sample spellings. The full characterisation is `BooleanCodec.DecodeIffCaseVariant`.
- `LongCodec.Encode` and `BooleanCodec.Encode`: `_encode` takes any `Object` in the
  source (Long.java:34, Boolean.java:34) and applies `toString()` to it. The model
  types the argument as the codec's own value type, so other objects are not covered.
- `_getJavaType` of both codecs returns a Java reflection object and is left out.
- `Double.java` is context, not core, and is not modelled.
