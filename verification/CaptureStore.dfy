/** Names of captures and their temporaries (src/artifacts/capture_store.cpp) and the sink
    that turns one into the other (src/artifacts/capture_sink.cpp). */
module CaptureStore {

  const TEMPORARY_PREFIX := ".cvftmp_"
  const MAX_IDENTIFIER_BYTES := 64
  const UNNAMED := "unnamed"

  predicate IsDigit(c: char) {
    '0' <= c <= '9'
  }

  predicate IsIdentifierByte(c: char) {
    'A' <= c <= 'Z' || 'a' <= c <= 'z' || IsDigit(c) || c == '.' || c == '_' || c == '-'
  }

  predicate AllIdentifierBytes(s: string) {
    forall i :: 0 <= i < |s| ==> IsIdentifierByte(s[i])
  }

  function Replaced(s: string): string {
    seq(|s|, i requires 0 <= i < |s| => if IsIdentifierByte(s[i]) then s[i] else '_')
  }

  function Sanitized(identifier: string): string {
    var kept := if |identifier| <= MAX_IDENTIFIER_BYTES then identifier else identifier[..MAX_IDENTIFIER_BYTES];
    if kept == "" then UNNAMED else Replaced(kept)
  }

  method SanitizeIdentifier(identifier: string) returns (sanitized: string)
    ensures sanitized == Sanitized(identifier)
    ensures AllIdentifierBytes(sanitized) && 1 <= |sanitized| <= MAX_IDENTIFIER_BYTES
  {
    sanitized := "";
    var i := 0;
    while i < |identifier|
      invariant 0 <= i <= |identifier| && i <= MAX_IDENTIFIER_BYTES
      invariant sanitized == Replaced(identifier[..i])
    {
      if |sanitized| >= MAX_IDENTIFIER_BYTES {
        break;
      }
      sanitized := sanitized + [if IsIdentifierByte(identifier[i]) then identifier[i] else '_'];
      i := i + 1;
    }
    if sanitized == "" {
      sanitized := UNNAMED;
    }
  }

  lemma SanitizedIsSafe(identifier: string)
    ensures AllIdentifierBytes(Sanitized(identifier)) && 1 <= |Sanitized(identifier)| <= MAX_IDENTIFIER_BYTES
    ensures Sanitized(Sanitized(identifier)) == Sanitized(identifier)
  {
    var s := Sanitized(identifier);
    assert Replaced(s) == s;
  }

  /** A safe identifier of at most 64 bytes is kept as it is; of any other the first 64 bytes are
      kept, each unsafe one as an underscore; the empty one becomes "unnamed". */
  lemma SanitizedExactly(identifier: string)
    ensures identifier == "" ==> Sanitized(identifier) == "unnamed"
    ensures identifier != "" ==>
              |Sanitized(identifier)| == if |identifier| <= 64 then |identifier| else 64
    ensures forall i :: 0 <= i < |identifier| && i < 64 ==>
              Sanitized(identifier)[i] == if IsSafe(identifier[i]) then identifier[i] else '_'
    ensures 1 <= |identifier| <= 64 && (forall i :: 0 <= i < |identifier| ==> IsSafe(identifier[i])) ==>
              Sanitized(identifier) == identifier
  {
    SafeIsIdentifierByte();
    if 1 <= |identifier| <= 64 && forall i :: 0 <= i < |identifier| ==> IsSafe(identifier[i]) {
      assert Replaced(identifier) == identifier;
    }
  }

  lemma SafeIsIdentifierByte()
    ensures forall c :: IsSafe(c) <==> IsIdentifierByte(c)
  {
  }

  /** The ASCII codes of letters, digits, hyphen, dot and underscore. */
  predicate IsSafe(c: char) {
    var code := c as int;
    65 <= code <= 90 || 97 <= code <= 122 || 48 <= code <= 57 || code == 45 || code == 46 || code == 95
  }

  // ----- std::to_string and its inverse ------------------------------------------------------

  function Digit(d: nat): char
    requires d < 10
  {
    '0' + d as char
  }

  function Decimal(n: nat): (s: string)
    ensures s != "" && forall i :: 0 <= i < |s| ==> IsDigit(s[i])
  {
    if n < 10 then [Digit(n)] else Decimal(n / 10) + [Digit(n % 10)]
  }

  function ParseDecimal(s: string): int {
    if s == "" then 0 else 10 * ParseDecimal(s[..|s| - 1]) + (s[|s| - 1] as int - '0' as int)
  }

  lemma {:induction false} DecimalRoundTrip(n: nat)
    ensures ParseDecimal(Decimal(n)) == n
  {
    if n >= 10 {
      var s := Decimal(n);
      DecimalRoundTrip(n / 10);
      assert s[..|s| - 1] == Decimal(n / 10);
    } else {
      assert ParseDecimal("") == 0;
      assert Decimal(n)[..0] == "";
    }
  }

  // ----- file names ------------------------------------------------------------------------------

  /** What `utc_stamp` produces: digits, `T` and `-`. */
  predicate IsStamp(s: string) {
    s != "" && forall i :: 0 <= i < |s| ==> IsDigit(s[i]) || s[i] == 'T' || s[i] == '-'
  }

  datatype Identity = Identity(recipeId: string, requestId: string, sequence: nat)

  function CaptureFilename(stamp: string, id: Identity): string {
    stamp + "_" + Sanitized(id.recipeId) + "_" + Sanitized(id.requestId) + "_" + Decimal(id.sequence) + ".png"
  }

  function TemporaryName(stamp: string, serial: nat): string {
    TEMPORARY_PREFIX + (stamp + "_" + Decimal(serial) + ".part")
  }

  predicate IsTemporaryName(name: string) {
    |name| >= |TEMPORARY_PREFIX| && name[..|TEMPORARY_PREFIX|] == TEMPORARY_PREFIX
  }

  /** `part` stands in `s` behind `before`. */
  predicate Follows(s: string, before: string, part: string) {
    before + part <= s
  }

  lemma StillFollows(s: string, before: string, part: string, more: string)
    requires Follows(s, before, part)
    ensures Follows(s + more, before, part)
  {
  }

  /** The name of a capture is the stamp, the recipe, the request and the frame sequence, in this
      order, with one underscore between them. */
  lemma FilenameParts(stamp: string, id: Identity)
    ensures var name := CaptureFilename(stamp, id);
            var recipe, request := Sanitized(id.recipeId), Sanitized(id.requestId);
            var number := Decimal(id.sequence);
            && Follows(name, "", stamp)
            && Follows(name, stamp + "_", recipe)
            && Follows(name, stamp + "_" + recipe + "_", request)
            && name == stamp + "_" + recipe + "_" + request + "_" + number + ".png"
  {
    var recipe, request, number := Sanitized(id.recipeId), Sanitized(id.requestId), Decimal(id.sequence);
    RequestFollows(stamp, recipe, request, number);
    RecipeFollows(stamp, recipe, request, number);
    assert "" + stamp == stamp;
    assert stamp + "_" + recipe == stamp + ("_" + recipe);
  }

  lemma RequestFollows(stamp: string, recipe: string, request: string, number: string)
    ensures Follows(stamp + "_" + recipe + "_" + request + "_" + number + ".png", stamp + "_" + recipe + "_", request)
  {
    var s := stamp + "_" + recipe + "_" + request;
    StillFollows(s, stamp + "_" + recipe + "_", request, "_");
    StillFollows(s + "_", stamp + "_" + recipe + "_", request, number);
    StillFollows(s + "_" + number, stamp + "_" + recipe + "_", request, ".png");
  }

  lemma RecipeFollows(stamp: string, recipe: string, request: string, number: string)
    ensures Follows(stamp + "_" + recipe + "_" + request + "_" + number + ".png", stamp + "_", recipe)
    ensures Follows(stamp + "_" + recipe + "_" + request + "_" + number + ".png", "", stamp)
  {
    RequestFollows(stamp, recipe, request, number);
    var name := stamp + "_" + recipe + "_" + request + "_" + number + ".png";
    var b := stamp + "_" + recipe;
    assert b <= b + "_" <= b + "_" + request;
    assert stamp <= stamp + "_" <= b;
    assert "" + stamp == stamp;
  }

  /** Final and temporary names are disjoint, so retention, which skips temporary names,
      never sees an unpublished file and never overlooks a published one. */
  lemma NamesAreDisjoint(stamp: string, id: Identity, serial: nat)
    requires IsStamp(stamp)
    ensures !IsTemporaryName(CaptureFilename(stamp, id))
    ensures IsTemporaryName(TemporaryName(stamp, serial))
  {
    var name := CaptureFilename(stamp, id);
    assert name[0] == stamp[0];
    assert TemporaryName(stamp, serial)[..|TEMPORARY_PREFIX|] == TEMPORARY_PREFIX;
  }

  /** The names that retention leaves alone. */
  lemma TemporaryNamesExactly(name: string)
    ensures IsTemporaryName(name) <==> exists rest :: name == ".cvftmp_" + rest
  {
    if IsTemporaryName(name) {
      assert name == ".cvftmp_" + name[8..];
    }
    if rest :| name == ".cvftmp_" + rest {
      assert name[..8] == ".cvftmp_";
    }
  }

  lemma IdentifierConcat(a: string, b: string)
    requires AllIdentifierBytes(a) && AllIdentifierBytes(b)
    ensures AllIdentifierBytes(a + b)
  {
  }

  /** Whatever the identifiers are, the file name has no separator and names no directory. */
  lemma FilenameStaysBelowRoot(stamp: string, id: Identity)
    requires IsStamp(stamp)
    ensures var name := CaptureFilename(stamp, id);
            AllIdentifierBytes(name) && '/' !in name && '\\' !in name && ':' !in name && name != "." && name != ".."
  {
    SanitizedIsSafe(id.recipeId);
    SanitizedIsSafe(id.requestId);
    var a := stamp + "_" + Sanitized(id.recipeId);
    IdentifierConcat(stamp, "_");
    IdentifierConcat(stamp + "_", Sanitized(id.recipeId));
    var b := a + "_" + Sanitized(id.requestId);
    IdentifierConcat(a, "_");
    IdentifierConcat(a + "_", Sanitized(id.requestId));
    IdentifierConcat(b, "_");
    IdentifierConcat(b + "_", Decimal(id.sequence));
    IdentifierConcat(b + "_" + Decimal(id.sequence), ".png");
    assert CaptureFilename(stamp, id)[0] == stamp[0];
  }

  /** The part of a string after its last underscore. */
  function Tail(s: string): string {
    if s == "" then "" else if s[|s| - 1] == '_' then "" else Tail(s[..|s| - 1]) + [s[|s| - 1]]
  }

  lemma {:induction false} TailOf(head: string, tail: string)
    requires '_' !in tail
    ensures Tail(head + "_" + tail) == tail
  {
    var s := head + "_" + tail;
    if tail == "" {
      assert s[|s| - 1] == '_';
    } else {
      var t := tail[..|tail| - 1];
      assert s[..|s| - 1] == head + "_" + t;
      TailOf(head, t);
      assert tail == t + [tail[|tail| - 1]];
    }
  }

  lemma FilenameTail(stamp: string, id: Identity)
    ensures Tail(CaptureFilename(stamp, id)) == Decimal(id.sequence) + ".png"
  {
    var head := stamp + "_" + Sanitized(id.recipeId) + "_" + Sanitized(id.requestId);
    var tail := Decimal(id.sequence) + ".png";
    assert CaptureFilename(stamp, id) == head + "_" + tail;
    TailOf(head, tail);
  }

  /** Captures with different frame sequences have different names, whatever the rest is. */
  lemma SequenceIsInName(stamp: string, id: Identity, stamp': string, id': Identity)
    requires CaptureFilename(stamp, id) == CaptureFilename(stamp', id')
    ensures id.sequence == id'.sequence
  {
    FilenameTail(stamp, id);
    FilenameTail(stamp', id');
    var d, d' := Decimal(id.sequence), Decimal(id'.sequence);
    assert d == (d + ".png")[..|d + ".png"| - 4];
    assert d' == (d' + ".png")[..|d' + ".png"| - 4];
    DecimalRoundTrip(id.sequence);
    DecimalRoundTrip(id'.sequence);
  }

  // ----- the sink ---------------------------------------------------------------------------------

  /** The captures directory by file name, and the registered temporaries. */
  datatype Store = Store(files: set<string>, pending: map<string, Identity>)

  /** How writing the temporary went; a failed write may leave a partial file behind. */
  datatype WriteResult = Written | WriteFailed(partialLeft: bool)

  function AfterWrite(s: Store, temp: string, id: Identity, r: WriteResult): Store {
    match r
    case Written => Store(s.files + {temp}, s.pending[temp := id])
    case WriteFailed(partialLeft) => if partialLeft then s.(files := s.files + {temp}) else s
  }

  predicate CanCommit(s: Store, temp: string, renameOk: bool) {
    temp in s.pending && renameOk
  }

  function CommittedName(s: Store, temp: string, stamp: string): string
    requires temp in s.pending
  {
    CaptureFilename(stamp, s.pending[temp])
  }

  function AfterCommit(s: Store, temp: string, stamp: string, renameOk: bool): Store {
    if temp !in s.pending then s
    else if !renameOk then s.(pending := s.pending - {temp})
    else Store(s.files - {temp} + {CommittedName(s, temp, stamp)}, s.pending - {temp})
  }

  function AfterDiscard(s: Store, temp: string, removeOk: bool): Store {
    Store(if removeOk then s.files - {temp} else s.files, s.pending - {temp})
  }

  datatype SinkReply = Named(name: string) | WriteError

  class CaptureStoreSink {
    var files: set<string>
    var pending: map<string, Identity>

    function View(): Store
      reads this
    {
      Store(files, pending)
    }

    method WriteTemp(id: Identity, stamp: string, serial: nat, r: WriteResult) returns (reply: SinkReply)
      modifies this
      ensures reply == if r.Written? then Named(TemporaryName(stamp, serial)) else WriteError
      ensures View() == AfterWrite(old(View()), TemporaryName(stamp, serial), id, r)
    {
      var temp := TemporaryName(stamp, serial);
      match r {
        case Written =>
          files := files + {temp};
          pending := pending[temp := id];
          return Named(temp);
        case WriteFailed(partialLeft) =>
          if partialLeft {
            files := files + {temp};
          }
          return WriteError;
      }
    }

    method Commit(temp: string, stamp: string, renameOk: bool) returns (reply: SinkReply)
      modifies this
      ensures reply == if CanCommit(old(View()), temp, renameOk) then Named(CommittedName(old(View()), temp, stamp))
                       else WriteError
      ensures View() == AfterCommit(old(View()), temp, stamp, renameOk)
    {
      if temp !in pending {
        return WriteError;
      }
      var id := pending[temp];
      pending := pending - {temp};
      if !renameOk {
        return WriteError;
      }
      var target := CaptureFilename(stamp, id);
      files := files - {temp} + {target};
      return Named(target);
    }

    method Discard(temp: string, removeOk: bool)
      modifies this
      ensures View() == AfterDiscard(old(View()), temp, removeOk)
    {
      pending := pending - {temp};
      if removeOk {
        files := files - {temp};
      }
    }
  }
}
