# Identity-card, bank-card and password validators, in Dafny

This project models three checks from a Java validation library:

- **Identity-card validation** for Chinese resident identity numbers (GB 11643-1999). An 18-character number is:
  - a 6-digit address code, whose first two digits are a province key;
  - an 8-digit `yyyyMMdd` birth date;
  - a 3-digit sequence number;
  - a check character computed with ISO 7064 MOD 11-2: weights `7 9 10 5 8 4 2 1 6 3 7 9 10 5 8 4 2` and the table `1 0 X 9 8 7 6 5 4 3 2`.

  A legacy 15-character number has a two-digit year and no check character. It is first expanded to 18 characters.
- **Bank-card validation**, a Luhn-family check digit. Each digit before the check digit that sits at an odd index, counted from the left starting at 0, is doubled and folded (`k / 10 + k % 10`). The last digit must bring the sum to a multiple of 10.
- **Password validation**: the length must be between 6 and 15.

Files and modules:

| file | module | contents |
|---|---|---|
| `wrappers.dfy` | `Wrappers` | `Option` (also stands for Java `null`) and `Result` (a normal return or a thrown exception) |
| `numeric.dfy` | `Numeric` | the "numeric" test, `c - '0'`, `String.valueOf` for non-negative ints, fixed-width digits, decimal values, Java's `%` and 32-bit `int` addition |
| `calendar.dfy` | `Calendar` | proleptic Gregorian date validity, the strict `yyyyMMdd` parse and its inverse, the current instant |
| `idcard_validator.dfy` | `IdcardValidator` | the identity-card validator: pure functions for the checks and the 15-to-18 expansion; methods with arrays and loops for `converCharToInt`, `getPowerSum` and `getCheckCode` |
| `idcard_properties.dfy` | `IdcardProperties` | the MOD 11-2 properties, the acceptance characterisation, round trips, error paths and the worked examples |
| `bank_card_validator.dfy` | `BankCardValidator` | the bank-card validator; `GetCheckCode` is the downward loop of the Java `getCheckCode`, with its 32-bit `int` sum, proved against `CheckCode` |
| `bank_card_properties.dfy` | `BankCardProperties` | the Luhn acceptance condition, round trip, comparison with the textbook right-to-left rule, worked examples |
| `password_validator.dfy` | `PasswordValidator` | the password length rule |

External inputs become parameters:

- **The current instant.** `Calendar.Moment` is a local date plus the milliseconds since its midnight. The parsed birthday is that day's midnight, so `birthday.before(now)` becomes `Calendar.StartsBefore`.
- **The `yyMMdd` parse.** The library call that turns a two-digit-year fragment into a calendar year is the parameter `IdcardValidator.YearParser`. It returns the year, or `None` when the library throws. The century rule comes from the library and is not part of this model.

`IdcardValidator.Validate` returns `Result<bool, Exception>` because the Java method can throw:

- `NullPointer`: a non-numeric 15-character input makes the expansion return `null`, and the length test then dereferences it.
- `DateParse`: the birth fragment cannot be parsed.
- `IndexOutOfBounds`: `getCheckCode` is given 17 characters whose weighted sum is negative and not a multiple of 11, so the Java remainder is negative. Only characters below `'0'` can make the sum negative. A negative multiple of 11 leaves remainder 0 and gives `"1"`. `IdcardValidator.Validate` never reaches this case.

Three behaviours of the code are easy to overlook:

- The province table has 35 keys.
- A non-numeric 15-character input makes `validate` throw a `NullPointerException`.
- `getCheckCode` returns `"1"` for an input of any length other than 17. For 17 characters it throws exactly when the weighted sum is negative and not a multiple of 11.

## Model

| member | source | states |
|---|---|---|
| `Numeric.NatToString` | src/main/java/validator/IdcardValidator.java:85 | `String.valueOf` of a year: non-empty, digits only, no leading zero (0 is written `0`), and reading the digits back gives the year |
| `Numeric.IsNumeric` | src/main/java/util/StringUtilsExtend.java:12-14 | no contract of its own: the negation of `isNotNumeric`, non-empty and ASCII digits only; its effect is characterised by `BankCardProperties.NonNumericRejected` and `IdcardProperties.NonNumericBodyRejected` |
| `Calendar.StartsBefore` | src/main/java/validator/IdcardValidator.java:118 | no contract of its own: `birthday.before(now)` for a birthday at midnight; its effect is characterised by `IdcardProperties.BadBirthdayRejected` |
| `Numeric.NatToStringFourDigits` | src/main/java/validator/IdcardValidator.java:85-86 | a year from 1000 to 9999 renders as exactly four digits, so the expanded number has 17 characters before its check character |
| `Calendar.ParseYyyyMMdd` | src/main/java/validator/IdcardValidator.java:121-129 | the strict `yyyyMMdd` parse yields only real dates (year at least 1, month 1-12, day within the month) |
| `Calendar.ParseFormat` | src/main/java/validator/IdcardValidator.java:122-125 | every real date of years 1-9999, written as `yyyyMMdd`, parses back to itself |
| `Calendar.FormatParse` | src/main/java/validator/IdcardValidator.java:122-125 | every field the strict parse accepts is exactly the `yyyyMMdd` writing of the date it returns |
| `Calendar.ParseDigits` | src/main/java/validator/IdcardValidator.java:121-129 | eight digits parse to the date whose year, month and day are the decimal values of characters 0-3, 4-5 and 6-7, exactly when that date exists |
| `Calendar.ImpossibleDayRejected` | src/test/java/validator/IdcardValidatorTest.java:14-17 | day 66 and 29 February 1990 do not parse; 29 February 2000 does |
| `IdcardValidator.ConvertCharToInt` | src/main/java/validator/IdcardValidator.java:188-194 | a fresh int array holding `c - '0'` for every character, in order |
| `IdcardValidator.GetPowerSum` | src/main/java/validator/IdcardValidator.java:170-180 | the weighted sum of 17 values with the fixed weights; 0 for any other length |
| `IdcardValidator.GetCheckCode` | src/main/java/validator/IdcardValidator.java:158-162 | the array-based computation agrees with `CheckCode` on every input, including the error case |
| `IdcardValidator.CheckCode` | src/main/java/validator/IdcardValidator.java:158-162 | on digit strings it never throws; it throws exactly when the input has 17 characters whose weighted sum is negative and not a multiple of 11; whenever it returns, the result is one of the 11 table characters |
| `Numeric.JavaRem` | src/main/java/validator/IdcardValidator.java:161 | Java's `%`: strictly between `-b` and `b`, with the sign of the dividend, and differing from the dividend by a multiple of `b`; it is 0 exactly when `b` divides the dividend |
| `IdcardValidator.ValidateCityCode` | src/main/java/validator/IdcardValidator.java:107-109 | no contract of its own: the first two characters are a key of the province table; characterised by `IdcardProperties.CityCodeTable` and `IdcardProperties.UnknownRegionRejected` |
| `IdcardValidator.GetBirthday` | src/main/java/validator/IdcardValidator.java:121-129 | no contract of its own: the strict parse of characters 6 to 13, whose contract is `Calendar.ParseYyyyMMdd`'s and whose round trips are `Calendar.ParseFormat` and `Calendar.FormatParse` |
| `IdcardValidator.ValidateBirthday` | src/main/java/validator/IdcardValidator.java:116-119 | no contract of its own: the birthday parses and its midnight is before now; characterised by `IdcardProperties.BadBirthdayRejected` and `IdcardProperties.Validate18Characterization` |
| `IdcardValidator.EqualsIgnoreCase` | src/main/java/validator/IdcardValidator.java:148 | no contract of its own: equality after ASCII upper-casing; characterised by `IdcardProperties.CheckCharacterCompletesMod11_2` and `IdcardProperties.WrongCheckCharacterRejected` |
| `IdcardValidator.ValidateCheckCode` | src/main/java/validator/IdcardValidator.java:136-149 | never throws on 18 characters; true only if the first 17 are digits and the 18th matches their check character, ignoring case |
| `IdcardValidator.IsValidate18Idcard` | src/main/java/validator/IdcardValidator.java:94-100 | never throws; true only for 18 characters with a known region and a past birthday |
| `IdcardValidator.Convert15Bit217Bit` | src/main/java/validator/IdcardValidator.java:75-87 | fails, with a date-parse exception, exactly when the `yyMMdd` fragment does not parse |
| `IdcardValidator.Convert15Bit218Bit` | src/main/java/validator/IdcardValidator.java:56-67 | returns null exactly for non-numeric input; the only exception it raises is the date-parse one |
| `IdcardValidator.Validate` | src/main/java/validator/IdcardValidator.java:39-48 | only 15-character input can throw; acceptance needs a 15- or 18-character input |
| `IdcardProperties.CheckCodeOfDigits` | src/main/java/validator/IdcardValidator.java:158-162 | for 17 digits the weighted sum is non-negative and the check character is `VerifyCode[sum % 11]`, one of `0`-`9` or `X` |
| `IdcardProperties.CheckCodeOfOtherLength` | src/main/java/validator/IdcardValidator.java:170-174 | any input that is not 17 characters long gets check character `'1'` |
| `IdcardProperties.CheckCodeOfSpacesThrows` | src/main/java/validator/IdcardValidator.java:159-161 | seventeen spaces give sum -1600, Java remainder -5, and an index exception |
| `IdcardProperties.CheckCodeOfNegativeMultipleOf11` | src/main/java/validator/IdcardValidator.java:159-161 | `00/0000/000000000` has weighted sum -11, Java remainder 0, and check character `1`: a negative sum does not always throw |
| `IdcardProperties.PowerIsMod11_2Weights` | src/main/java/validator/IdcardValidator.java:252 | each weight is `2^(17-i) mod 11`, the MOD 11-2 weight of its position |
| `IdcardProperties.CheckCharacterCompletesMod11_2` | src/main/java/validator/IdcardValidator.java:255 | the table entry at `sum % 11` is, ignoring case, exactly the check character whose value (X = 10) makes the total 1 modulo 11 |
| `IdcardProperties.ValidateCheckCodeIsMod11_2` | src/main/java/validator/IdcardValidator.java:136-149 | the check-character test holds exactly when the 17 digits plus the 18th character satisfy the MOD 11-2 equation (both directions) |
| `IdcardProperties.SingleSubstitutionDetected` | src/main/java/validator/IdcardValidator.java:158-162 | changing any one of the 17 digits always changes the check character |
| `IdcardProperties.CityCodeTable` | src/main/java/validator/IdcardValidator.java:204-249 | every key of the province table is two digits |
| `IdcardProperties.Validate18Characterization` | src/main/java/validator/IdcardValidator.java:94-100 | on 18 characters, validation never throws and accepts exactly when region, birthday and check character are all right |
| `IdcardProperties.WrongLengthRejected` | src/main/java/validator/IdcardValidator.java:39-48 | null, empty and any input whose length is neither 15 nor 18 is rejected without an exception |
| `IdcardProperties.UnknownRegionRejected` | src/main/java/validator/IdcardValidator.java:107-109 | a first-two-character code outside the table means the input is never accepted, whatever the rest holds, at either length |
| `IdcardProperties.BadBirthdayRejected` | src/main/java/validator/IdcardValidator.java:116-129 | an impossible birth date, or one whose midnight is not before now, makes an 18-character input rejected |
| `IdcardProperties.NonNumericBodyRejected` | src/main/java/validator/IdcardValidator.java:138-141 | a non-digit among the first 17 characters makes an 18-character input rejected |
| `IdcardProperties.WrongCheckCharacterRejected` | src/main/java/validator/IdcardValidator.java:143-148 | an 18th character that differs from the computed one, ignoring case, makes the input rejected |
| `IdcardProperties.RoundTrip` | src/main/java/validator/IdcardValidator.java:136-149 | a 17-digit body with a known region and a past birthday, followed by its check character, is accepted; a lowercase `x` also works wherever `X` is computed |
| `IdcardProperties.NonNumericFifteenThrows` | src/main/java/validator/IdcardValidator.java:56-60 | a non-numeric 15-character input expands to null, and validation throws a null-pointer exception at the length test (line 96) |
| `IdcardProperties.UnparsableFragmentThrows` | src/main/java/validator/IdcardValidator.java:76-82 | a numeric 15-character input whose `yyMMdd` fragment does not parse makes validation throw |
| `IdcardProperties.ExpansionShape` | src/main/java/validator/IdcardValidator.java:56-87 | with a four-digit year, the expansion has 18 characters: positions 0-5 unchanged, then the year, then input positions 8-14, then their check character; so it always passes the check-character test |
| `IdcardProperties.FifteenAgreesWithExpansion` | src/main/java/validator/IdcardValidator.java:44-47 | validating a 15-character number gives the same result as validating its 18-character expansion |
| `IdcardProperties.TrueIdcardExample` | src/test/java/validator/IdcardValidatorTest.java:32-35 | body `34240119900401234` has check character `0`, and the full number `342401199004012340` is accepted once 1 April 1990 has begun |
| `IdcardProperties.FalseCityCodeExample` | src/test/java/validator/IdcardValidatorTest.java:8-11 | region 38 makes `38232219900412234` followed by any 18th character rejected, the computed check character included |
| `IdcardProperties.FalseDateExample` | src/test/java/validator/IdcardValidatorTest.java:14-17 | day 66 makes `34240119900466234` followed by any 18th character rejected, the computed check character included |
| `IdcardProperties.FalseUnbornExample` | src/test/java/validator/IdcardValidatorTest.java:20-29 | a birthday of 1 April 2090 makes `34240120900401234` followed by any 18th character (the computed one, or `1`) rejected at any instant up to that day's midnight |
| `IdcardProperties.True15IdcardExpansion` | src/test/java/validator/IdcardValidatorTest.java:38-40 | if the library reads `900714` as 1990, then `342401900714192` expands to `342401199007141922` (the body `34240119900714192` and check character `2`) |
| `IdcardProperties.True15IdcardExample` | src/test/java/validator/IdcardValidatorTest.java:38-40 | under that reading, `342401900714192` is accepted once 14 July 1990 has begun |
| `BankCardValidator.Contribution` | src/main/java/validator/BankCardValidator.java:34-38 | each term is 0-9: the digit itself, or, when doubled, `2d` for `d < 5` and `2d - 9` otherwise |
| `BankCardValidator.LuhnSum` | src/main/java/validator/BankCardValidator.java:33-40 | a sum over a range of digits is between 0 and 9 times the range's length |
| `BankCardValidator.CheckDigit` | src/main/java/validator/BankCardValidator.java:41 | the check digit is a digit, and adding it to the sum gives a multiple of 10 |
| `Numeric.Wrap32` | src/main/java/validator/BankCardValidator.java:32-39 | a Java `int` value lies in [-2^31, 2^31); values already in that range are unchanged, and values in [2^31, 2^32) lose 2^32 |
| `Numeric.Wrap32Congruent` | src/main/java/validator/BankCardValidator.java:39 | wrapping changes a value by a multiple of 2^32 |
| `Numeric.Wrap32Add` | src/main/java/validator/BankCardValidator.java:39 | adding to the wrapped sum and wrapping again gives the wrap of the exact sum, so the loop's `int` sum is the wrap of the whole sum |
| `BankCardValidator.CheckCharacter` | src/main/java/validator/BankCardValidator.java:41 | for a non-negative `int` sum the result is the completing digit; the result is a digit exactly when the sum is non-negative or a multiple of 10 |
| `BankCardValidator.CheckCode` | src/main/java/validator/BankCardValidator.java:30-42 | for cards of at most 238,609,295 characters, the character computed is the completing digit of the exact sum |
| `BankCardValidator.GetCheckCode` | src/main/java/validator/BankCardValidator.java:30-42 | the downward loop over indices `length-2` to 0, summing in a 32-bit `int`, returns the character that `CheckCode` specifies, a digit for cards of at most 238,609,295 characters |
| `BankCardValidator.Validate` | src/main/java/validator/BankCardValidator.java:17-23 | no contract of its own: numeric, and the last character equals the computed check character; characterised for every input by `BankCardProperties.ValidateIsWrappedLuhnCondition` and `BankCardProperties.NonNumericRejected` |
| `BankCardProperties.ValidateIsWrappedLuhnCondition` | src/main/java/validator/BankCardValidator.java:17-42 | for every input: accepted exactly when the input is numeric, the 32-bit sum plus the last digit is a multiple of 10, and the 32-bit sum is non-negative or a multiple of 10 |
| `BankCardProperties.CheckCharacterMatches` | src/main/java/validator/BankCardValidator.java:41 | a digit equals the character computed from an `int` sum exactly when it completes that sum and the sum is non-negative or a multiple of 10 |
| `BankCardProperties.ValidateIsLuhnCondition` | src/main/java/validator/BankCardValidator.java:17-23 | for cards of at most 238,609,295 characters, accepted exactly when the input is numeric and the sum of the terms plus the last digit is a multiple of 10 (both directions) |
| `BankCardProperties.OverflowingSumRejected` | src/main/java/validator/BankCardValidator.java:39-41 | a numeric card whose sum lies in [2^31, 2^32) and does not end in 6 is rejected, because the wrapped sum is negative and the computed character is not a digit |
| `BankCardProperties.WrappedSumNegative` | src/main/java/validator/BankCardValidator.java:39-41 | a sum in [2^31, 2^32) not ending in 6 wraps to a negative `int` that is not a multiple of 10 |
| `BankCardProperties.NonNumericRejected` | src/main/java/validator/BankCardValidator.java:18-20 | null, empty and any input with a non-digit is rejected |
| `BankCardProperties.LastCharacterIgnored` | src/main/java/validator/BankCardValidator.java:33 | two numeric inputs that differ only in the last character get the same computed check digit |
| `BankCardProperties.CheckDigitUnique` | src/main/java/validator/BankCardValidator.java:41 | exactly one digit brings a given sum to a multiple of 10, and it is the computed one |
| `BankCardProperties.RoundTrip` | src/main/java/validator/BankCardValidator.java:21-22 | any digit string of fewer than 238,609,295 characters, the empty one included, followed by its computed check digit is accepted |
| `BankCardProperties.SingleDigit` | src/main/java/validator/BankCardValidator.java:30-42 | a one-character input is accepted exactly when it is `0` |
| `BankCardProperties.CheckCodeCompletesSum` | src/main/java/validator/BankCardValidator.java:41 | on cards of at most 238,609,295 characters, the computed check character is a digit, and it completes the sum to a multiple of 10 |
| `BankCardProperties.EvenPayloadIsTextbookLuhn` | src/main/java/validator/BankCardValidator.java:35-38 | when the digits before the check digit are even in number (and the card has at most 238,609,295 characters), doubling by odd left-to-right index is the textbook right-to-left rule |
| `BankCardProperties.SixteenDigitCardDiffers` | src/main/java/validator/BankCardValidator.java:11-14 | for 16-digit cards the two rules differ: `4111111111111111` (a 4 and fifteen 1s) passes textbook Luhn but is rejected |
| `BankCardProperties.AcceptedCardExample` | src/test/java/validator/BankCardValidatorTest.java:9-12 | a card whose digits are `6212288802000001666` is accepted: its payload sum is 54, which calls for the final 6 |
| `BankCardProperties.RejectedCardExample` | src/test/java/validator/BankCardValidatorTest.java:13-16 | a card whose digits are `6212288802000002666` is rejected: its payload sum is 56, which calls for 4, not 6 |
| `PasswordValidator.Validate` | src/main/java/validator/PasswordValidator.java:12-18 | no contract of its own: null and empty are rejected, otherwise the length must be 6 to 15; characterised by `PasswordValidator.AcceptedLengths` and `PasswordValidator.NullOrEmptyRejected` |
| `PasswordValidator.NullOrEmptyRejected` | src/main/java/validator/PasswordValidator.java:13-15 | null and empty passwords are rejected |
| `PasswordValidator.AcceptedLengths` | src/main/java/validator/PasswordValidator.java:17 | a password is accepted exactly when its length is between 6 and 15 |
| `PasswordValidator.OnlyLengthMatters` | src/main/java/validator/PasswordValidator.java:12-18 | two passwords of the same length get the same answer, whatever their characters |
| `PasswordValidator.BoundaryLengths` | src/main/java/validator/PasswordValidator.java:17 | lengths 5 and 16 are rejected; lengths 6 and 15 are accepted |

## Left out

- `GeneralValidator` (email, mobile, CJK and IPv4 checks): these are Java regular-expression matches, so the interesting part is the regex engine, which is not modelled.
- `StringUtils.isNumeric`, from a library not shown here: modelled as "non-empty and all ASCII digits". The real test also accepts other Unicode decimal digits, for which `c - '0'` gives values far above 9. Where the model answers `false` for such inputs, the program may accept them (for example a bank card of U+0661 followed by `5`). On a 15-character identity number the model throws where the program does not; see the next two lines.
- IdcardValidator.Validate: on a 15-character input that holds a non-ASCII Unicode digit (for example `34` followed by thirteen U+0661), the model returns `Err(NullPointer)`, while Java's numeric test passes, the expansion does not return null, and Java goes on to the `yyMMdd` parse, which either throws the date-parse exception or leads to a boolean.
- IdcardProperties.NonNumericFifteenThrows: holds in Java only for inputs that Java's numeric test rejects; for inputs with non-ASCII Unicode digits Java does not throw a `NullPointerException`.
- The two-digit-year century rule of the `yyMMdd` parse. It is a parameter, so the model does not fix which century a two-digit year lands in. It also does not fix how the library handles out-of-range months or days in that fragment.
- The Julian calendar before 15 October 1582, which Java's calendar uses. The model uses the proleptic Gregorian calendar throughout.
- Time zones. The current instant is a local date and time given as a parameter.
- The strict `yyyyMMdd` parse on non-digit characters: the library may partly parse such a field. The model rejects it outright. For characters that Java's numeric test also rejects, this cannot change `validate`'s result, because such a character among the first 17 already makes the check-character test fail (`IdcardProperties.NonNumericBodyRejected`). For non-ASCII Unicode digits, which Java's numeric test accepts, Java's parse and check-character computation may give a different answer.
- `equalsIgnoreCase` beyond ASCII letters. Only ASCII case folding is modelled; the computed character is always a digit or `X`.
- The region names in the province table. Only key membership affects validation.
- Thread safety of the static table and its one-time initialisation.
- Java's UTF-16 strings versus Dafny's strings of Unicode scalar values. Lengths are counted in code points, where Java's `length()` counts UTF-16 units, so a character outside the Basic Multilingual Plane counts once in the model and twice in Java. The arithmetic on ASCII digits is the same either way.
- PasswordValidator.Validate: counts code points, so three U+1F600 characters make a password of length 3, which the model rejects, while Java counts 6 and accepts it.
- IdcardValidator.Validate: counts code points, so a 15-unit Java string holding one supplementary character is a 14-character input here and gives `Ok(false)`, while Java expands it and throws a `NullPointerException`.
- Java `int` overflow in the identity-card sum: 17 characters times weights summing to 100 stay far below 2^31, so unbounded integers are used there. The bank-card sum is modelled as a 32-bit `int` (`Numeric.Wrap32`).
- BankCardProperties.ValidateIsLuhnCondition: stated for cards of at most 238,609,295 characters, where the `int` sum cannot wrap; `ValidateIsWrappedLuhnCondition` covers every length.
- BankCardProperties.RoundTrip: stated for payloads of fewer than 238,609,295 digits; on longer payloads the appended exact check digit can differ from the one Java computes from its wrapped sum.
- BankCardProperties.CheckCodeCompletesSum: stated for cards of at most 238,609,295 characters; beyond that the computed character can be a non-digit.
- BankCardProperties.EvenPayloadIsTextbookLuhn: stated for cards of at most 238,609,295 characters, for the same reason.
- IdcardProperties.CityCodeTable: does not prove that the province table has exactly 35 keys, because counting a 35-string set display is too costly for the solver.
