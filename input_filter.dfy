/** Zend\InputFilter's HTTP-server file input decorator: validation and
    filtering of upload values in the `$_FILES` shape, over a FileInput
    subject whose state it reads and updates. */
module InputFilter {
  import opened PhpValue

  // ---------------------------------------------------------------------
  // Collaborators of the subject
  // ---------------------------------------------------------------------

  /** The kind of a validator instance in a validator chain. */
  datatype ValidatorKind = UploadFile | OtherValidator(name: string)

  /** One entry of `ValidatorChain::getValidators()`. */
  datatype ValidatorEntry = ValidatorEntry(instance: ValidatorKind, breakChainOnFailure: bool)

  /** What `prependByName('fileuploadfile', [], true)` puts at the front. */
  const UploadEntry: ValidatorEntry := ValidatorEntry(UploadFile, true)

  /** The validator chain's verdict `isValid(value, context)`, for a chain
      with the given entries. */
  type ChainVerdict = (seq<ValidatorEntry>, Value, Value) -> bool

  /** The filter chain's `filter(value)`. */
  type Filter = Value -> Value

  /** The subject's `isValid` field: unset until a verdict is stored. */
  datatype Validity = Unset | Known(ok: bool)

  // ---------------------------------------------------------------------
  // Emptiness
  // ---------------------------------------------------------------------

  /** An array is exactly `[0 => x]` with `x` not null. */
  predicate IsSingleWrapper(v: Value) {
    v.Arr? && |v.entries| == 1 && Isset(v, IntKey(0))
  }

  /** An upload value that is empty without looking any deeper: a
      non-array, or an array whose 'error' is identically UPLOAD_ERR_NO_FILE. */
  predicate EmptyLeaf(v: Value) {
    !v.Arr? || (Isset(v, ERROR) && Get(v, ERROR).value == Int(UPLOAD_ERR_NO_FILE))
  }

  /** The value under `n` single-entry `[0 => x]` wrappers, if there are that many. */
  function Unwrap(v: Value, n: nat): (r: Option<Value>)
  {
    if n == 0 then Some(v)
    else if IsSingleWrapper(v) then Unwrap(Get(v, IntKey(0)).value, n - 1)
    else None
  }

  // ---------------------------------------------------------------------
  // Normalisation and shape
  // ---------------------------------------------------------------------

  /** The descriptor `isValid` builds for a raw value that is not an array
      (an AJAX post delivers the field as a string). */
  function Placeholder(raw: Value): (d: Value)
    ensures d.Arr? && |d.entries| == 5
  {
    Arr([(TMP_NAME, raw), (NAME, raw), (SIZE, Int(0)), (TYPE, Str("")),
         (ERROR, Int(UPLOAD_ERR_NO_FILE))])
  }

  /** The placeholder is a full descriptor: tmp_name and name are the raw
      value, size 0, type '', and error UPLOAD_ERR_NO_FILE. */
  lemma PlaceholderDescriptor(raw: Value)
    ensures Get(Placeholder(raw), TMP_NAME) == Some(raw) && Get(Placeholder(raw), NAME) == Some(raw)
    ensures Get(Placeholder(raw), SIZE) == Some(Int(0)) && Get(Placeholder(raw), TYPE) == Some(Str(""))
    ensures Get(Placeholder(raw), ERROR) == Some(Int(UPLOAD_ERR_NO_FILE))
  {
    var d := Placeholder(raw);
    // the five keys differ in length or, for the three of length 4, in their first letter
    assert |"tmp_name"| == 8 && |"error"| == 5 && |"name"| == |"size"| == |"type"| == 4;
    assert "name"[0] == 'n' && "size"[0] == 's' && "type"[0] == 't';
    forall j | 0 <= j < 5 ensures Get(d, d.entries[j].0) == Some(d.entries[j].1) {
      GetFirstOccurrence(d, j);
    }
    assert d.entries[0] == (TMP_NAME, raw) && d.entries[1] == (NAME, raw);
    assert d.entries[2] == (SIZE, Int(0)) && d.entries[3] == (TYPE, Str(""));
    assert d.entries[4] == (ERROR, Int(UPLOAD_ERR_NO_FILE));
  }

  /** The raw value as `isValid` sees it after normalisation. */
  function Normalize(raw: Value): (v: Value)
    ensures v.Arr?
    ensures raw.Arr? ==> v == raw
    ensures !raw.Arr? ==>
              && Get(v, TMP_NAME) == Some(raw) && Get(v, NAME) == Some(raw)
              && Get(v, SIZE) == Some(Int(0)) && Get(v, TYPE) == Some(Str(""))
              && Get(v, ERROR) == Some(Int(UPLOAD_ERR_NO_FILE))
  {
    if raw.Arr? then raw
    else
      PlaceholderDescriptor(raw);
      Placeholder(raw)
  }

  datatype Shape = SingleFile | MultiFile | Unrecognised

  /** Which branch of `isValid` a normalised value takes. */
  function ShapeOf(v: Value): (s: Shape)
  {
    if v.Arr? && Isset(v, TMP_NAME) then SingleFile
    else if v.Arr? && IssetNested(v, IntKey(0), TMP_NAME) then MultiFile
    else Unrecognised
  }

  /** An element `getValue` keeps in a multi-file value. */
  predicate IsUploadedFile(v: Value) {
    v.Arr? && Isset(v, TMP_NAME)
  }

  // ---------------------------------------------------------------------
  // Multi-file filtering
  // ---------------------------------------------------------------------

  /** The values of `entries` that satisfy `keep`, in order. */
  function KeepValues<T>(keep: T -> bool, entries: seq<(Key, T)>): (kept: seq<T>)
  {
    if |entries| == 0 then []
    else
      var last := entries[|entries| - 1].1;
      KeepValues(keep, entries[..|entries| - 1]) + (if keep(last) then [last] else [])
  }

  /** The elements of a multi-file array that `getValue` filters, in order. */
  function UploadedFiles(entries: seq<(Key, Value)>): (files: seq<Value>)
  {
    KeepValues(IsUploadedFile, entries)
  }

  /** `fs` lists, in order, the values of `entries` at the strictly
      increasing positions `idx`, and those positions are exactly the
      ones whose value satisfies `keep`. */
  ghost predicate SelectsExactly<T>(keep: T -> bool, entries: seq<(Key, T)>, fs: seq<T>, idx: seq<int>) {
    && |idx| == |fs|
    && (forall j :: 0 <= j < |idx| ==> 0 <= idx[j] < |entries| && fs[j] == entries[idx[j]].1 && keep(fs[j]))
    && (forall j, j' :: 0 <= j < j' < |idx| ==> idx[j] < idx[j'])
    && (forall i :: 0 <= i < |entries| && keep(entries[i].1) ==> i in idx)
  }

  /** The filter chain applied to each value, in order. */
  function FilterEach(filter: Filter, vs: seq<Value>): (fs: seq<Value>)
    ensures |fs| == |vs|
    ensures forall j :: 0 <= j < |vs| ==> fs[j] == filter(vs[j])
  {
    seq(|vs|, j requires 0 <= j < |vs| => filter(vs[j]))
  }

  // ---------------------------------------------------------------------
  // Multi-file validation
  // ---------------------------------------------------------------------

  /** Position of the first value the chain rejects, or |vs| if it
      accepts them all. */
  function FirstFailure(validate: ChainVerdict, chain: seq<ValidatorEntry>, vs: seq<Value>, context: Value): (k: nat)
    ensures k <= |vs|
    ensures forall j :: 0 <= j < k ==> validate(chain, vs[j], context)
    ensures k < |vs| ==> !validate(chain, vs[k], context)
  {
    if |vs| == 0 then 0
    else if !validate(chain, vs[0], context) then 0
    else 1 + FirstFailure(validate, chain, vs[1..], context)
  }

  /** How many values the short-circuiting loop hands to the chain:
      all of them, or up to and including the first rejected one. */
  function ValidatedCount(validate: ChainVerdict, chain: seq<ValidatorEntry>, vs: seq<Value>, context: Value): (n: nat)
    ensures n <= |vs|
  {
    var k := FirstFailure(validate, chain, vs, context);
    if k < |vs| then k + 1 else k
  }

  // ---------------------------------------------------------------------
  // Upload validator injection
  // ---------------------------------------------------------------------

  /** The chain after prepending the upload validator unless one is already first. */
  function PrependUpload(chain: seq<ValidatorEntry>): (r: seq<ValidatorEntry>)
    ensures |r| > 0 && r[0].instance == UploadFile
    ensures |chain| <= |r| <= |chain| + 1 && r[|r| - |chain|..] == chain
    ensures |chain| > 0 && chain[0].instance == UploadFile ==> r == chain
    ensures !(|chain| > 0 && chain[0].instance == UploadFile) ==> r[0] == UploadEntry && |r| == |chain| + 1
  {
    if |chain| > 0 && chain[0].instance == UploadFile then chain else [UploadEntry] + chain
  }

  /** Number of upload validators in a chain. */
  function UploadCount(chain: seq<ValidatorEntry>): (n: nat)
  {
    if |chain| == 0 then 0
    else (if chain[0].instance == UploadFile then 1 else 0) + UploadCount(chain[1..])
  }

  // ---------------------------------------------------------------------
  // The subject and the decorator
  // ---------------------------------------------------------------------

  /** The decorated FileInput: the state the decorator reads and updates. */
  class FileInput {
    var value: Value
    var isValid: Validity
    var autoPrependUploadValidator: bool
    var validators: seq<ValidatorEntry>

    constructor (value: Value, validators: seq<ValidatorEntry>)
      ensures this.value == value && this.validators == validators
      ensures isValid == Unset && autoPrependUploadValidator
    {
      this.value := value;
      this.validators := validators;
      isValid := Unset;
      autoPrependUploadValidator := true;
    }
  }

  class HttpServerFileInputDecorator {
    const subject: FileInput

    constructor (subject: FileInput)
      ensures this.subject == subject
    {
      this.subject := subject;
    }

    /** Is the raw value an empty file input, i.e. was no file uploaded? */
    static function IsEmptyFileDecorator(rawValue: Value): (empty: bool)
      decreases rawValue
    {
      if !rawValue.Arr? then true
      else if Isset(rawValue, ERROR) && Get(rawValue, ERROR).value == Int(UPLOAD_ERR_NO_FILE) then true
      else if |rawValue.entries| == 1 && Isset(rawValue, IntKey(0)) then
        var i := IndexOf(rawValue.entries, IntKey(0));
        assert rawValue.entries[i] in rawValue.entries;
        IsEmptyFileDecorator(rawValue.entries[i].1)
      else false
    }

    /** The subject's value, filtered only after a successful validation.
        `filterInputs` lists the values handed to the filter chain, in order. */
    method GetValue(filter: Filter) returns (r: Value, filterInputs: seq<Value>)
      ensures subject.isValid != Known(true) || !subject.value.Arr? ==>
                r == subject.value && filterInputs == []
      ensures subject.isValid == Known(true) && Isset(subject.value, TMP_NAME) ==>
                r == filter(subject.value) && filterInputs == [subject.value]
      ensures subject.isValid == Known(true) && subject.value.Arr? && !Isset(subject.value, TMP_NAME) ==>
                filterInputs == UploadedFiles(subject.value.entries) &&
                r == Arr(Listed(FilterEach(filter, filterInputs)))
    {
      var value := subject.value;
      r, filterInputs := value, [];
      if subject.isValid == Known(true) && value.Arr? {
        if Isset(value, TMP_NAME) {
          // single file input
          r := filter(value);
          filterInputs := [value];
        } else {
          // multi file input
          var newValue;
          newValue, filterInputs := FilterUploadedFiles(filter, value.entries);
          r := Arr(newValue);
        }
      }
    }

    /** The `foreach` of the multi-file branch: filters, in order, each
        element that is an array with a tmp_name, appending the result to
        a new list, and drops the other elements. */
    static method FilterUploadedFiles(filter: Filter, entries: seq<(Key, Value)>)
      returns (newValue: seq<(Key, Value)>, filterInputs: seq<Value>)
      ensures filterInputs == UploadedFiles(entries)
      ensures newValue == Listed(FilterEach(filter, filterInputs))
    {
      newValue, filterInputs := [], [];
      for i := 0 to |entries|
        invariant filterInputs == UploadedFiles(entries[..i])
        invariant newValue == Listed(FilterEach(filter, filterInputs))
      {
        assert entries[..i + 1][..i] == entries[..i];
        var fileData := entries[i].1;
        if IsUploadedFile(fileData) {
          ListedIsList(FilterEach(filter, filterInputs));
          assert FilterEach(filter, filterInputs + [fileData])
              == FilterEach(filter, filterInputs) + [filter(fileData)];
          newValue := newValue + [(IntKey(|newValue|), filter(fileData))];
          filterInputs := filterInputs + [fileData];
        }
      }
      assert entries[..|entries|] == entries;
    }

    /** Validates the subject's raw value and stores the verdict in the
        subject. `validatorInputs` lists the values handed to the validator
        chain, in order. */
    method IsValid(validate: ChainVerdict, context: Value) returns (r: Validity, validatorInputs: seq<Value>)
      modifies subject
      ensures subject.value == old(subject.value)
      ensures !subject.autoPrependUploadValidator
      ensures subject.validators ==
                if old(subject.autoPrependUploadValidator) then PrependUpload(old(subject.validators))
                else old(subject.validators)
      ensures var v := Normalize(subject.value);
              ShapeOf(v) == SingleFile ==>
                validatorInputs == [v] && subject.isValid == Known(validate(subject.validators, v, context))
      ensures var v := Normalize(subject.value);
              ShapeOf(v) == MultiFile ==>
                var vs := Values(v.entries);
                && validatorInputs == vs[..ValidatedCount(validate, subject.validators, vs, context)]
                && subject.isValid == Known(forall j :: 0 <= j < |vs| ==> validate(subject.validators, vs[j], context))
      ensures ShapeOf(Normalize(subject.value)) == Unrecognised ==>
                validatorInputs == [] && subject.isValid == old(subject.isValid)
      ensures r == subject.isValid
    {
      var rawValue := subject.value;
      InjectUploadValidator();
      // the chain object fetched before the injection is the one it prepends to
      var chain := subject.validators;

      if !rawValue.Arr? {
        rawValue := Placeholder(rawValue);
      }
      assert rawValue == Normalize(subject.value);
      validatorInputs := [];
      if rawValue.Arr? && Isset(rawValue, TMP_NAME) {
        // single file input
        validatorInputs := [rawValue];
        subject.isValid := Known(validate(chain, rawValue, context));
      } else if rawValue.Arr? && IssetNested(rawValue, IntKey(0), TMP_NAME) {
        // multi file input
        subject.isValid := Known(true);
        var allValid;
        allValid, validatorInputs := ValidateEach(validate, chain, Values(rawValue.entries), context);
        if !allValid {
          subject.isValid := Known(false);
        }
      }
      r := subject.isValid;
    }

    /** The `foreach` of the multi-file branch: hands each file to the chain
        in order and stops at the first one it rejects. */
    static method ValidateEach(validate: ChainVerdict, chain: seq<ValidatorEntry>, files: seq<Value>, context: Value)
      returns (allValid: bool, validatorInputs: seq<Value>)
      ensures allValid <==> forall j :: 0 <= j < |files| ==> validate(chain, files[j], context)
      ensures validatorInputs == files[..ValidatedCount(validate, chain, files, context)]
    {
      allValid, validatorInputs := true, [];
      for i := 0 to |files|
        invariant validatorInputs == files[..i]
        invariant forall j :: 0 <= j < i ==> validate(chain, files[j], context)
      {
        validatorInputs := validatorInputs + [files[i]];
        if !validate(chain, files[i], context) {
          allValid := false;
          assert FirstFailure(validate, chain, files, context) == i;
          break;
        }
      }
    }

    /** Puts the upload validator first in the subject's chain, once. */
    method InjectUploadValidator()
      modifies subject
      ensures subject.value == old(subject.value) && subject.isValid == old(subject.isValid)
      ensures !subject.autoPrependUploadValidator
      ensures !old(subject.autoPrependUploadValidator) ==> subject.validators == old(subject.validators)
      ensures old(subject.autoPrependUploadValidator) ==> subject.validators == PrependUpload(old(subject.validators))
    {
      if !subject.autoPrependUploadValidator {
        return;
      }
      var validators := subject.validators;
      if |validators| > 0 && validators[0].instance == UploadFile {
        subject.autoPrependUploadValidator := false;
        return;
      }
      subject.validators := [UploadEntry] + subject.validators;
      subject.autoPrependUploadValidator := false;
    }
  }
}
