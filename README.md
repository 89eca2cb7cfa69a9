# Expungement record domain model in Dafny

This project models the domain-value layer of an expungement-eligibility service:
the vocabulary that eligibility rules are written against. That vocabulary is statutes,
crime levels, dispositions, charges, cases and clients. All of them live in one Python
file, `src/backend/expungeservice/expunger/analyze.py`. The model has five modules:

- `Wrappers`: `Option`, `Result`, and Python truthiness of optional fields.
  `FalsyNat` holds for `None` and `0`. `FalsyText` holds for `None` and `""`.
- `Decimal`: Python's `'{}'.format(n)` and `'{:03d}'.format(n)` for natural numbers.
  It also defines the digit-string reader that inverts them.
- `Statutes`: the `Statute` citation `chapter.subchapter(section)(subsection)`,
  with its equality (`__eq__`) and its canonical text (`__str__`).
- `CrimeLevels`: `CrimeLevel` and its text, both the intended one and the one the code
  actually has (which raises `NameError`).
- `Records`: the `DispositionType` and `CaseState` enumerations, plus the `Disposition`,
  `Charge`, `Case` and `Client` records. It also holds the charge counts.
  `Client.NumCharges` is the source's accumulating loop, proved against a recursive sum.

The source builds every entity once and never mutates it, so every entity is an immutable
datatype. The only loop is the charge count in `Client.num_charges`. It becomes a method
with a loop invariant. Since the client is a value, that method cannot change any case or
charge.

Facts about the code that the model keeps:

- Statute equality has no partial-prefix match. A missing or zero section matches only another missing or zero section, and the same goes for subsections (analyze.py:69-72). So `653.412` differs from `653.412(5)(c)`. Equality is strict equality once falsy sections and subsections are normalised to `None`, which makes it an equivalence relation.
- The subchapter is compared with `==` (analyze.py:68) but rendered only when truthy (analyze.py:77). `None` and `0` are therefore unequal, yet both render as the bare chapter.
- The constructors only assign fields and raise nothing. The model has no error-raising constructors.
- `subchapter` is a required argument that may be `None` (analyze.py:59). `section` and `subsection` default to `None`, a crime level's class defaults to `None` (analyze.py:16), and a case's balance defaults to `0.0` (analyze.py:117). The datatypes carry the same defaults.

## Model

| member | source | states |
|---|---|---|
| Statutes.Statute.Equals | src/backend/expungeservice/expunger/analyze.py:66-72 | Two statutes are equal exactly when their normalized forms are identical. The normal form keeps chapter and subchapter as given and maps a falsy section or subsection to absent. Equality implies equal chapters and equal subchapters. |
| Statutes.EqualsReflexive | src/backend/expungeservice/expunger/analyze.py:66-72 | Every statute equals itself. |
| Statutes.EqualsSymmetric | src/backend/expungeservice/expunger/analyze.py:66-72 | a equals b exactly when b equals a. |
| Statutes.EqualsTransitive | src/backend/expungeservice/expunger/analyze.py:66-72 | Equality is transitive, so there is no partial-match chain. |
| Statutes.MissingSectionNeverMatches | src/backend/expungeservice/expunger/analyze.py:69-70 | A statute without a (truthy) section never equals one with a nonzero section, in either order. |
| Statutes.MissingSubsectionNeverMatches | src/backend/expungeservice/expunger/analyze.py:71-72 | A statute without a (truthy) subsection never equals one with a non-empty subsection, in either order. |
| Statutes.EqualsExamples | src/backend/expungeservice/expunger/analyze.py:66-72 | 653.412 differs from 653.412(5)(c). 653.412(5)(c) differs from 653.412(5)(d). A missing subchapter differs from subchapter 0. Section 0 with an empty subsection equals no section and no subsection. |
| Decimal.FromNat | src/backend/expungeservice/expunger/analyze.py:76 | The chapter's text is non-empty decimal digits. The digits read back as the number. There is no leading zero unless the number is 0. |
| Decimal.ZeroPad | src/backend/expungeservice/expunger/analyze.py:78 | Padding to width 3 gives digits of length max(3, original length). It ends with the original digits and denotes the same number. |
| Statutes.Statute.SubchapterText | src/backend/expungeservice/expunger/analyze.py:77-78 | The subchapter part is empty exactly when the subchapter is falsy. Otherwise it is '.' followed by at least three digits that denote the subchapter, and a group longer than three digits has no leading zero. |
| Statutes.Statute.SectionText | src/backend/expungeservice/expunger/analyze.py:79-80 | The section part is empty exactly when the section is falsy. Otherwise it is '(' and ')' around the section's decimal digits, with no leading zero. |
| Statutes.Statute.SubsectionText | src/backend/expungeservice/expunger/analyze.py:81-82 | The subsection part is empty exactly when the subsection is falsy. Otherwise it is '(' and ')' around the subsection text. |
| Statutes.Statute.Suffix | src/backend/expungeservice/expunger/analyze.py:77-82 | The text after the chapter is the subchapter part, then the section part, then the subsection part. It is empty or starts with '.' or '('. It starts with '.' exactly when the subchapter is truthy, and is empty exactly when all three are falsy. |
| Statutes.Statute.ToString | src/backend/expungeservice/expunger/analyze.py:74-83 | The text is the chapter's decimal digits followed by the subchapter, section and subsection parts, in that order. It is exactly those digits when every optional part is falsy. The character after them is '.' exactly when the subchapter is truthy. |
| Statutes.EqualsImpliesSameText | src/backend/expungeservice/expunger/analyze.py:66-83 | Equal statutes render to the same text. |
| Statutes.SameTextDoesNotImplyEquals | src/backend/expungeservice/expunger/analyze.py:66-83 | The converse fails: subchapter None and subchapter 0 both render "653", but the statutes are unequal. |
| Statutes.TextDeterminesChapterAndSubchapter | src/backend/expungeservice/expunger/analyze.py:74-78 | Equal texts imply equal chapters. They also imply the same subchapter truthiness, and the same subchapter when it is truthy. |
| Statutes.SectionAndSubsectionCanCollide | src/backend/expungeservice/expunger/analyze.py:79-82 | The text cannot tell the section from the subsection. Section 5 alone and subsection "5" alone both render "653(5)", yet the statutes are unequal. |
| Statutes.ToStringFullCitation | src/backend/expungeservice/expunger/analyze.py:49-50 | (653, 412, 5, "c") renders "653.412(5)(c)". |
| Statutes.ToStringSubchapterOnly | src/backend/expungeservice/expunger/analyze.py:74-78 | (653, 412) renders "653.412". |
| Statutes.ToStringPaddedSubchapter | src/backend/expungeservice/expunger/analyze.py:77-78 | Subchapter 5 is zero-padded: "653.005". |
| Statutes.ToStringChapterOnly | src/backend/expungeservice/expunger/analyze.py:74-77 | (653, None) renders "653". |
| CrimeLevels.CrimeLevel.ToString | src/backend/expungeservice/expunger/analyze.py:10-24 | The intended text starts with the type. It equals the type exactly when the class is falsy. Otherwise the type is followed by " Class " and the class. |
| CrimeLevels.CrimeLevel.ToStringAsWritten | src/backend/expungeservice/expunger/analyze.py:20-24 | As written, the conversion always yields Failure(NameError("class_")), because the guard reads the unbound name class_. |
| CrimeLevels.AsWrittenAlwaysRaises | src/backend/expungeservice/expunger/analyze.py:20-21 | As written, the conversion raises NameError for the unbound name class_ on every crime level, so it never yields the intended text. |
| CrimeLevels.ToStringExamples | src/backend/expungeservice/expunger/analyze.py:10-24 | "Felony" with class "A" renders "Felony Class A". "Misdemeanor" with no class or an empty class renders "Misdemeanor". |
| CrimeLevels.ClassIsRecoverable | src/backend/expungeservice/expunger/analyze.py:20-22 | For one offense type, two truthy classes with the same text are the same class. |
| Records.DispositionType.Value | src/backend/expungeservice/expunger/analyze.py:26-33 | Each of the five disposition kinds has a value in 1..5. |
| Records.DispositionType.FromValue | src/backend/expungeservice/expunger/analyze.py:26-33 | Lookup by value succeeds exactly for 1..5, and returns the kind with that value. |
| Records.DispositionValueRoundTrip | src/backend/expungeservice/expunger/analyze.py:26-33 | Looking up a kind's value gives back that kind. |
| Records.CaseState.Value | src/backend/expungeservice/expunger/analyze.py:107 | OPEN and CLOSED have values 1 and 2. |
| Records.CaseState.FromValue | src/backend/expungeservice/expunger/analyze.py:107 | Lookup by value succeeds exactly for 1 and 2, and returns the state with that value. |
| Records.CaseStateValueRoundTrip | src/backend/expungeservice/expunger/analyze.py:107 | Looking up a state's value gives back that state. |
| Records.Case.NumCharges | src/backend/expungeservice/expunger/analyze.py:122-123 | A case's count is the length of its charge list, i.e. the number of charges it contributes when cases' charges are laid end to end. |
| Records.Client.NumCharges | src/backend/expungeservice/expunger/analyze.py:138-142 | The accumulating loop returns the sum of the cases' charge counts. That sum equals the number of all charges across all cases. |
| Records.TotalChargesAppend | src/backend/expungeservice/expunger/analyze.py:138-142 | The charge total is additive over concatenated case lists. |
| Records.TotalIsAllChargesCount | src/backend/expungeservice/expunger/analyze.py:122-142 | Summing len(charges) per case equals the length of all charges laid end to end. |
| Records.NoCasesNoCharges | src/backend/expungeservice/expunger/analyze.py:138-142 | A client with no cases has 0 charges. |
| Records.AddingACase | src/backend/expungeservice/expunger/analyze.py:138-142 | Adding a case at either end increases the total by exactly that case's number of charges. |
| Records.ThreeChargesExample | src/backend/expungeservice/expunger/analyze.py:122-142 | Cases holding [c1, c2] and [c3] give a client 3 charges, for any charges c1, c2, c3. |

## Left out

- Integer fields: chapter, subchapter and section are natural numbers. Negative values and string sections are not modelled. Neither are non-integer values that Python's dynamic typing would accept.
- Statute comparison with a non-statute object, which raises AttributeError in the source, is not modelled. The model is typed.
- Hashing is not modelled. In the source, defining `__eq__` without `__hash__` leaves statutes unhashable.
- Case.balance_due is a Python float. It is carried as an opaque `real` with no arithmetic on it. Float rounding is not modelled.
- Disposition, charge and birth dates are opaque values with no validation and no arithmetic. None happens in the source either.
- Enumeration names, iteration and lookup by name are not modelled. Only the numbering and lookup by value are.
- The React component src/frontend/src/components/RecordSearch/expandedView/CasesSummary.tsx is not part of this model. It is display code.
- The eligibility rule engine, record ingestion, persistence and statute parsing are not part of this model. None of them exist in the modelled file.

## Findings

| source | as written | input that shows it | evidently intended | confidence | as-written member | corrected member |
|---|---|---|---|---|---|---|
| src/backend/expungeservice/expunger/analyze.py:21 | `if class_:` reads an unbound name and raises NameError | CrimeLevel("Felony", "A"), or any other level | `if self.class_:`, rendering "Felony Class A" (documented at line 10) | high; not executed | CrimeLevels.CrimeLevel.ToStringAsWritten, with CrimeLevels.AsWrittenAlwaysRaises | CrimeLevels.CrimeLevel.ToString, with CrimeLevels.ToStringExamples |
