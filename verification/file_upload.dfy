/** The import panel of components/FileUpload.tsx: the MIME check, the
    normalisation of the raw records the extraction service returns, and
    the `isProcessing`/`error` state around the asynchronous steps. The
    extraction call itself, the file reading and `crypto.randomUUID` are
    outside the model: their outcomes and the fresh ids are parameters. */
module FileUpload {
  import opened Types

  const WrongTypeError: string := "Mohon upload file gambar (JPG, PNG)."
  const ReadError: string := "Gagal membaca file."
  const ExtractionError: string := "Gagal mengenali teks. Pastikan gambar jelas."

  /** `file.type.startsWith('image/')`. */
  function IsImageType(mime: string): (r: bool)
    ensures r <==> "image/" <= mime
  {
    |mime| >= 6 && mime[..6] == "image/"
  }

  /** A record as the extraction service returns it: any field may be
      missing. */
  datatype RawCourse = RawCourse(
    code: Option<string>,
    name: Option<string>,
    sks: Option<int>,
    grade: Option<string>,
    semester: Option<int>
  )

  /** `s || fallback` for a string field: missing and empty are falsy. */
  function OrText(s: Option<string>, fallback: string): (r: string)
    ensures s.Some? && s.value != "" ==> r == s.value
    ensures s.None? || s.value == "" ==> r == fallback
  {
    match s
    case Some(v) => if v != "" then v else fallback
    case None => fallback
  }

  /** `n || fallback` for a number field: missing and 0 are falsy. */
  function OrNumber(n: Option<int>, fallback: int): (r: int)
    ensures n.Some? && n.value != 0 ==> r == n.value
    ensures n.None? || n.value == 0 ==> r == fallback
  {
    match n
    case Some(v) => if v != 0 then v else fallback
    case None => fallback
  }

  /** The flag is computed from the RAW grade: a missing grade is none of
      `-`, `BL` and the empty string, so it gives `true`. */
  function IncludedFromRaw(grade: Option<string>): (b: bool)
    ensures grade.None? ==> b
    ensures grade.Some? ==> (b <==> CountsTowardGpa(grade.value))
  {
    match grade
    case Some(g) => CountsTowardGpa(g)
    case None => true
  }

  /** One record of the `rawCourses.map`. */
  function Normalise(raw: RawCourse, id: string): (c: Course)
    ensures c.id == id
    ensures c.code == OrText(raw.code, "UNK") && c.name == OrText(raw.name, "Unknown Course")
    ensures c.sks == OrNumber(raw.sks, 0) && c.semester == OrNumber(raw.semester, 1)
    ensures c.grade == OrText(raw.grade, Ungraded)
    ensures c.includedInGpa == IncludedFromRaw(raw.grade)
  {
    Course(id, OrText(raw.code, "UNK"), OrText(raw.name, "Unknown Course"), OrNumber(raw.sks, 0),
           OrText(raw.grade, Ungraded), OrNumber(raw.semester, 1), IncludedFromRaw(raw.grade))
  }

  /** Every imported row has a code and a name and a semester other than 0,
      so none of them is dropped as blank by a later import. */
  lemma NormalisedRowShape(raw: RawCourse, id: string)
    ensures Normalise(raw, id).code != "" && Normalise(raw, id).name != ""
    ensures Normalise(raw, id).semester != 0
    ensures Normalise(raw, id).grade != ""
  {
  }

  /** The flag of an imported row agrees with its stored grade exactly when
      the raw record carried a grade; a missing grade is stored as `-` with
      the flag set. */
  lemma NormalisedConsistency(raw: RawCourse, id: string)
    ensures Consistent(Normalise(raw, id)) <==> raw.grade.Some?
    ensures raw.grade.None? ==> Normalise(raw, id).grade == Ungraded && Normalise(raw, id).includedInGpa
  {
    if raw.grade.Some? && raw.grade.value == "" {
      assert Normalise(raw, id).grade == Ungraded;
    }
  }

  /** A raw grade of `-`, `BL` or the empty string yields a row that does
      not count. */
  lemma SentinelGradeExcluded(raw: RawCourse, id: string)
    requires raw.grade == Some(Ungraded) || raw.grade == Some(Exempted) || raw.grade == Some("")
    ensures !Normalise(raw, id).includedInGpa
  {
  }

  /** `rawCourses.map`: one row per record, in the same order. */
  function NormaliseAll(raws: seq<RawCourse>, ids: seq<string>): (r: seq<Course>)
    requires |ids| == |raws|
    ensures |r| == |raws|
    ensures forall i :: 0 <= i < |raws| ==> r[i] == Normalise(raws[i], ids[i])
  {
    seq(|raws|, i requires 0 <= i < |raws| => Normalise(raws[i], ids[i]))
  }

  /** When every record carries a grade, the imported rows all keep the
      flag in agreement with the grade. */
  lemma NormaliseAllConsistent(raws: seq<RawCourse>, ids: seq<string>)
    requires |ids| == |raws|
    requires forall i :: 0 <= i < |raws| ==> raws[i].grade.Some?
    ensures AllConsistent(NormaliseAll(raws, ids))
  {
    forall i | 0 <= i < |raws| ensures Consistent(NormaliseAll(raws, ids)[i]) {
      NormalisedConsistency(raws[i], ids[i]);
    }
  }

  /** The chosen file: its MIME type. */
  datatype FileInfo = FileInfo(mimeType: string)

  /** What `onloadend` finds: a read that failed (the reader's result is
      null), or a read that succeeded followed by the extraction call, which
      returns records or throws. */
  datatype Extraction = ReadFailed | Extracted(raws: seq<RawCourse>) | ExtractionFailed

  /** The panel's state. */
  class UploadPanel {
    var isProcessing: bool
    var error: Option<string>

    constructor ()
      ensures !isProcessing && error.None?
    {
      isProcessing := false;
      error := None;
    }

    /** `handleFileChange` up to the point where the reader is started. No
        file: nothing happens. A non-image: only the error is set. Otherwise
        processing starts with the error cleared; if starting the reader
        throws, processing stops with the read error. `started` says whether
        the extraction is now pending. */
    method HandleFileChange(file: Option<FileInfo>, readerThrows: bool) returns (started: bool)
      modifies this
      ensures started <==> file.Some? && IsImageType(file.value.mimeType) && !readerThrows
      ensures file.None? ==> isProcessing == old(isProcessing) && error == old(error)
      ensures file.Some? && !IsImageType(file.value.mimeType) ==>
                isProcessing == old(isProcessing) && error == Some(WrongTypeError)
      ensures file.Some? && IsImageType(file.value.mimeType) && readerThrows ==>
                !isProcessing && error == Some(ReadError)
      ensures started ==> isProcessing && error.None?
    {
      started := false;
      if file.None? {
        return;
      }
      if !IsImageType(file.value.mimeType) {
        error := Some(WrongTypeError);
        return;
      }
      isProcessing := true;
      error := None;
      if readerThrows {
        error := Some(ReadError);
        isProcessing := false;
        return;
      }
      started := true;
    }

    /** `reader.onloadend` as written: the reader's result is split before
        the inner `try`, so after a failed read the exception escapes the
        handler and neither the error nor `isProcessing` is touched. On
        success the normalised rows are handed to `onDataExtracted`
        (returned here); on an extraction failure only the error is set.
        After either of those processing ends. */
    method OnLoadEnd(extraction: Extraction, ids: seq<string>) returns (delivered: Option<seq<Course>>)
      requires extraction.Extracted? ==> |ids| == |extraction.raws|
      modifies this
      ensures extraction.ReadFailed? ==>
                delivered.None? && isProcessing == old(isProcessing) && error == old(error)
      ensures !extraction.ReadFailed? ==> !isProcessing
      ensures extraction.Extracted? ==>
                delivered == Some(NormaliseAll(extraction.raws, ids)) && error == old(error)
      ensures extraction.ExtractionFailed? ==> delivered.None? && error == Some(ExtractionError)
    {
      if extraction.ReadFailed? {
        delivered := None;
        return;
      }
      if extraction.Extracted? {
        delivered := Some(NormaliseAll(extraction.raws, ids));
      } else {
        delivered := None;
        error := Some(ExtractionError);
      }
      isProcessing := false;
    }

    /** `reader.onloadend` with the split moved inside the guarded block
        and a failed read reported like a reader that cannot start: every
        outcome ends processing. */
    method OnLoadEndGuarded(extraction: Extraction, ids: seq<string>) returns (delivered: Option<seq<Course>>)
      requires extraction.Extracted? ==> |ids| == |extraction.raws|
      modifies this
      ensures !isProcessing
      ensures extraction.ReadFailed? ==> delivered.None? && error == Some(ReadError)
      ensures extraction.Extracted? ==>
                delivered == Some(NormaliseAll(extraction.raws, ids)) && error == old(error)
      ensures extraction.ExtractionFailed? ==> delivered.None? && error == Some(ExtractionError)
    {
      if extraction.ReadFailed? {
        delivered := None;
        error := Some(ReadError);
      } else if extraction.Extracted? {
        delivered := Some(NormaliseAll(extraction.raws, ids));
      } else {
        delivered := None;
        error := Some(ExtractionError);
      }
      isProcessing := false;
    }
  }

  /** An image whose read fails leaves the panel processing with no error:
      the spinner replaces the file input and nothing clears it. */
  method ReadFailureLeavesSpinner(mime: string) returns (processing: bool, error: Option<string>)
    requires "image/" <= mime
    ensures processing && error.None?
  {
    var panel := new UploadPanel();
    var started := panel.HandleFileChange(Some(FileInfo(mime)), false);
    var delivered := panel.OnLoadEnd(ReadFailed, []);
    processing, error := panel.isProcessing, panel.error;
  }

  /** With the guarded handler the same failed read ends processing and
      shows the read error. */
  method GuardedReadFailureEndsProcessing(mime: string) returns (processing: bool, error: Option<string>)
    requires "image/" <= mime
    ensures !processing && error == Some(ReadError)
  {
    var panel := new UploadPanel();
    var started := panel.HandleFileChange(Some(FileInfo(mime)), false);
    var delivered := panel.OnLoadEndGuarded(ReadFailed, []);
    processing, error := panel.isProcessing, panel.error;
  }

  /** A rejected file never reaches the extraction: the panel is left with
      the type error and no import is pending. */
  method RejectNonImage(mime: string) returns (started: bool, error: Option<string>)
    requires !("image/" <= mime)
    ensures !started && error == Some(WrongTypeError)
  {
    var panel := new UploadPanel();
    started := panel.HandleFileChange(Some(FileInfo(mime)), false);
    error := panel.error;
  }
}
