/**
 * The persisted `job` row, the creation request, the download-info
 * projection and the pagination request and response, with the
 * validation rules declared on the row's `name`.
 */
module JobModel {
  import opened Wrappers
  import opened Utils
  import opened Validator

  /** The store's `Int4` and `BigInt` columns. */
  newtype i32 = x: int | -0x8000_0000 <= x < 0x8000_0000
  newtype i64 = x: int | -0x8000_0000_0000_0000 <= x < 0x8000_0000_0000_0000

  /** A 128-bit UUID; only equality between ids matters here. */
  newtype Uuid = x: int | 0 <= x < 0x1_0000_0000_0000_0000_0000_0000_0000_0000

  /** A naive date-time; only its order matters here. */
  type Timestamp = int

  /** A row of the `job` table. */
  datatype Job = Job(
    id: Uuid,
    name: string,
    totalSize: i32,
    downloadedSize: i32,
    percentDownloaded: i32,
    status: string,
    isActive: bool,
    creationDate: Timestamp,
    expirationDate: Option<Timestamp>)

  /** The creation request: the three fields a client chooses. */
  datatype NewJob = NewJob(name: string, totalSize: i32, isActive: bool)

  /** The download-info projection of a row. */
  datatype JobInfo = JobInfo(name: string, downloadedSize: i32, remainingSize: i32)

  datatype PaginationDTO = PaginationDTO(pageSize: i64, offset: i64)

  /** The listing response; `count` is the table's row count (its 64-bit bound is not modelled). */
  datatype PaginatedResponseDTO<T> = PaginatedResponseDTO(paginatedList: seq<T>, count: nat)

  const NAME_MIN_LENGTH: nat := 3
  const NAME_MAX_LENGTH: nat := 49
  /** The code given to the length rule on `name`. */
  const NAME_LENGTH_ERROR: string := "name-length-error"
  /** The code the validation crate gives a regex rule that names none. */
  const REGEX_ERROR: string := "regex"

  /** The constraint declared on `Job.name`: 3 to 49 characters, all of them in REGEX_FULL_WORD's class. */
  predicate ValidName(name: string): (b: bool)
    ensures b <==> 3 <= |name| <= 49 && forall i :: 0 <= i < |name| ==> IsFullWordChar(name[i])
  {
    NAME_MIN_LENGTH <= |name| <= NAME_MAX_LENGTH && MatchesFullWord(name)
  }

  /**
   * The errors the derived validation reports on `name`, in the order the
   * rules are declared. Neither rule sets a message.
   */
  function NameErrors(name: string): (errs: seq<ValidationError>)
    ensures errs == [] <==> ValidName(name)
    ensures ValidationError(NAME_LENGTH_ERROR, None) in errs <==> !(NAME_MIN_LENGTH <= |name| <= NAME_MAX_LENGTH)
    ensures ValidationError(REGEX_ERROR, None) in errs <==> !MatchesFullWord(name)
    ensures forall e :: e in errs ==> e.message.None?
  {
    (if NAME_MIN_LENGTH <= |name| <= NAME_MAX_LENGTH then [] else [ValidationError(NAME_LENGTH_ERROR, None)])
    + (if MatchesFullWord(name) then [] else [ValidationError(REGEX_ERROR, None)])
  }

  /**
   * The derived `validate` of `Job`: `name` is the only field with rules.
   * `NewJob` derives no validation at all, so a name given at creation is
   * never checked by its type.
   */
  function ValidateJob(job: Job): (r: Result<(), ValidationErrors>)
    ensures r.Ok? <==> ValidName(job.name)
    ensures r.Err? ==> r.error.fields == [("name", Field(NameErrors(job.name)))] && NameErrors(job.name) != []
  {
    var errs := NameErrors(job.name);
    if errs == [] then Ok(()) else Err(ValidationErrors([("name", Field(errs))]))
  }

  /** A digit anywhere makes a name invalid, whatever its length. */
  lemma DigitMakesNameInvalid(name: string, i: int)
    requires 0 <= i < |name| && '0' <= name[i] <= '9'
    ensures !ValidName(name)
    ensures ValidationError(REGEX_ERROR, None) in NameErrors(name)
  {
    FullWordRejectsOutsider(name, i);
  }

  /** Two characters are too few, three letters are enough. */
  lemma NameLengthExamples()
    ensures !ValidName("ab") && NameErrors("ab") == [ValidationError(NAME_LENGTH_ERROR, None)]
    ensures ValidName("abc")
  {
  }

  /** Digits are refused even in a name of valid length. */
  lemma NameDigitExample()
    ensures !ValidName("abc123") && NameErrors("abc123") == [ValidationError(REGEX_ERROR, None)]
  {
    FullWordRejectsOutsider("abc123", 3);
  }

  /** `-`, `_` and `.` are accepted between letters. */
  lemma NamePunctuationExample()
    ensures ValidName("ab-c_d.e")
  {
    var name := "ab-c_d.e";
    assert MatchesFullWord(name) && |name| == 8;
  }
}
