/** The input aggregator `process_input`: the pasted code followed by one
    tagged block per uploaded source file. */
module Aggregator {
  import opened PyText
  import opened Optional

  newtype byte = b: int | 0 <= b < 256

  /** The permissive UTF-8 decoding (`decode('utf-8', errors='ignore')`),
      which never fails; the model leaves it uninterpreted. */
  type Decoder = seq<byte> -> string

  /** One name of a zip archive's `namelist()`, in that order. `data` and
      `readable` are what `z.open(name)` gives for that name, which for a
      name listed twice is the last member stored under it: its bytes, and
      false when opening or reading it raises (a bad checksum, an encrypted
      or unsupported member). */
  datatype Entry = Entry(name: string, data: seq<byte>, readable: bool)

  /** What `zipfile.ZipFile` makes of the uploaded bytes. */
  datatype ZipArchive = Unreadable | Archive(entries: seq<Entry>)

  /** The parsing of an upload as a zip container; left uninterpreted. */
  type ZipReader = seq<byte> -> ZipArchive

  /** An entry of `request.files['code_file']`. */
  datatype Upload = Upload(filename: string, data: seq<byte>)

  const ZipSuffix: string := ".zip"

  /** The suffixes of the archive members that are read. */
  const SourceSuffixes: seq<string> := [".py", ".js", ".ts", ".java", ".html", ".css"]

  /** `s.endswith(suffixes)` for a tuple of suffixes. */
  function EndsWithAny(s: string, suffixes: seq<string>): (b: bool)
    ensures b <==> exists k :: 0 <= k < |suffixes| && EndsWith(s, suffixes[k])
  {
    if suffixes == [] then false
    else if EndsWith(s, suffixes[0]) then true
    else
      var b := EndsWithAny(s, suffixes[1..]);
      assert b ==> exists k :: 0 <= k < |suffixes| && EndsWith(s, suffixes[k]) by {
        if b {
          var k :| 0 <= k < |suffixes| - 1 && EndsWith(s, suffixes[1..][k]);
          assert EndsWith(s, suffixes[k + 1]);
        }
      }
      assert !b ==> forall k :: 0 <= k < |suffixes| ==> !EndsWith(s, suffixes[k]) by {
        if !b {
          forall k | 0 <= k < |suffixes| ensures !EndsWith(s, suffixes[k]) {
            if k > 0 {
              assert suffixes[k] == suffixes[1..][k - 1];
            }
          }
        }
      }
      b
  }

  /** The archive members that are read. */
  predicate IsSourceName(name: string) {
    EndsWithAny(name, SourceSuffixes)
  }

  /** How every file block opens. */
  const FileMarker: string := "\n\n--- FILE: "

  /** What closes the header line `--- FILE: <name> ---` of a file block. */
  const HeaderClose: string := " ---\n"

  /** The block appended for one file: the marker, the file's name right
      after it, and the content at the end. */
  function FileBlock(name: string, content: string): (r: string)
    ensures StartsWith(r, FileMarker)
    ensures OccursAt(r, name, |FileMarker|)
    ensures EndsWith(r, content)
  {
    var r := FileMarker + name + HeaderClose + content;
    assert r[|FileMarker|..|FileMarker| + |name|] == name;
    r
  }

  /** The header line closes right after the name, and the content follows
      it directly: with the contract of `FileBlock`, this pins every
      character of the block. */
  lemma FileBlockLayout(name: string, content: string)
    ensures OccursAt(FileBlock(name, content), HeaderClose, |FileMarker| + |name|)
    ensures |FileBlock(name, content)| == |FileMarker| + |name| + |HeaderClose| + |content|
  {
    var r := FileBlock(name, content);
    var k := |FileMarker| + |name|;
    assert r == FileMarker + name + HeaderClose + content;
    assert r[k..k + |HeaderClose|] == HeaderClose;
  }

  /** A member whose reading raises and ends the loop. */
  predicate Breaks(e: Entry) {
    IsSourceName(e.name) && !e.readable
  }

  /** The blocks of the source members of `es`, in order; other members add
      nothing. Whatever they add opens with a file marker. */
  function Blocks(es: seq<Entry>, decode: Decoder): (r: string)
    ensures r == "" || StartsWith(r, FileMarker)
  {
    if es == [] then ""
    else
      var last := es[|es| - 1];
      var front := Blocks(es[..|es| - 1], decode);
      var block := if IsSourceName(last.name) then FileBlock(last.name, decode(last.data)) else "";
      assert front != "" ==> (front + block)[..|FileMarker|] == front[..|FileMarker|];
      front + block
  }

  /** How many members are processed before the first one that raises. */
  function ReadableRun(es: seq<Entry>): (n: nat)
    ensures n <= |es|
    ensures forall k :: 0 <= k < n ==> !Breaks(es[k])
    ensures n < |es| ==> Breaks(es[n])
  {
    if es == [] || Breaks(es[0]) then 0 else 1 + ReadableRun(es[1..])
  }

  /** What an archive contributes: the blocks up to the first failure. */
  function ArchiveText(es: seq<Entry>, decode: Decoder): string {
    Blocks(es[..ReadableRun(es)], decode)
  }

  /** What the upload contributes after the pasted code: nothing, or text
      that opens with a file marker. */
  function UploadText(upload: Option<Upload>, openZip: ZipReader, decode: Decoder): (r: string)
    ensures r == "" || StartsWith(r, FileMarker)
  {
    match upload
    case None => ""
    case Some(u) =>
      if EndsWith(u.filename, ZipSuffix) then
        match openZip(u.data)
        case Unreadable => ""
        case Archive(es) => ArchiveText(es, decode)
      else if u.filename != "" then FileBlock(u.filename, decode(u.data))
      else ""
  }


  /** One more member adds its block, if any, after the others. */
  lemma BlocksExtend(es: seq<Entry>, i: int, decode: Decoder)
    requires 0 <= i < |es|
    ensures Blocks(es[..i + 1], decode)
            == Blocks(es[..i], decode)
               + (if IsSourceName(es[i].name) then FileBlock(es[i].name, decode(es[i].data)) else "")
  {
    assert es[..i + 1][..i] == es[..i];
  }

  /** The `for name in z.namelist()` loop of `process_input`: appends the
      block of each source member in archive order; the first member that
      raises ends the loop, and what was appended before it is kept. */
  method AppendArchive(acc: string, es: seq<Entry>, decode: Decoder) returns (combined: string)
    ensures combined == acc + ArchiveText(es, decode)
  {
    combined := acc;
    var i := 0;
    while i < |es|
      invariant 0 <= i <= ReadableRun(es)
      invariant combined == acc + Blocks(es[..i], decode)
    {
      var e := es[i];
      if IsSourceName(e.name) && !e.readable {
        assert Breaks(es[i]);
        break;
      }
      var block := if IsSourceName(e.name) then FileBlock(e.name, decode(e.data)) else "";
      BlocksExtend(es, i, decode);
      AppendAssoc(acc, Blocks(es[..i], decode), block);
      combined := combined + block;
      i := i + 1;
    }
    assert i == ReadableRun(es);
    assert es[..ReadableRun(es)] == es[..i];
  }

  /** `process_input`: appends to the pasted code a block per source member
      of a zip upload, or one block for any other upload with a name. An
      upload that is not a zip container adds nothing. */
  method ProcessInput(code: string, upload: Option<Upload>, openZip: ZipReader, decode: Decoder)
    returns (combined: string)
    ensures combined == code + UploadText(upload, openZip, decode)
  {
    combined := code;
    if upload.Some? {
      var file := upload.value;
      if EndsWith(file.filename, ZipSuffix) {
        var archive := openZip(file.data);
        if archive.Archive? {
          combined := AppendArchive(combined, archive.entries, decode);
        }
      } else if file.filename != "" {
        combined := combined + FileBlock(file.filename, decode(file.data));
      }
    }
  }

  /** The pasted code always comes first. */
  lemma CodeIsPrefix(code: string, upload: Option<Upload>, openZip: ZipReader, decode: Decoder)
    ensures StartsWith(code + UploadText(upload, openZip, decode), code)
  {
    var out := code + UploadText(upload, openZip, decode);
    assert out[..|code|] == code;
  }

  /** A non-zip upload with a name adds exactly its one block. */
  lemma SingleFileUpload(code: string, u: Upload, openZip: ZipReader, decode: Decoder)
    requires !EndsWith(u.filename, ZipSuffix) && u.filename != ""
    ensures code + UploadText(Some(u), openZip, decode) == code + FileBlock(u.filename, decode(u.data))
  {
  }

  /** No upload, or one with an empty name, leaves the code as it is. */
  lemma NoNamedUpload(code: string, upload: Option<Upload>, openZip: ZipReader, decode: Decoder)
    requires upload.None? || upload.value.filename == ""
    ensures code + UploadText(upload, openZip, decode) == code
  {
  }

  /** Blocks keep archive order: the blocks of a concatenation are the
      blocks of its parts, one after the other. */
  lemma {:induction false} BlocksAppend(xs: seq<Entry>, ys: seq<Entry>, decode: Decoder)
    ensures Blocks(xs + ys, decode) == Blocks(xs, decode) + Blocks(ys, decode)
    decreases |ys|
  {
    if ys == [] {
      assert xs + ys == xs;
    } else {
      var init, last := ys[..|ys| - 1], ys[|ys| - 1];
      var block := if IsSourceName(last.name) then FileBlock(last.name, decode(last.data)) else "";
      assert (xs + ys)[..|xs + ys| - 1] == xs + init;
      assert (xs + ys)[|xs + ys| - 1] == last;
      assert Blocks(xs + ys, decode) == Blocks(xs + init, decode) + block;
      BlocksAppend(xs, init, decode);
      AppendAssoc(Blocks(xs, decode), Blocks(init, decode), block);
    }
  }

  /** A member whose name has none of the source suffixes contributes
      nothing, wherever it stands. */
  lemma SkippedMember(xs: seq<Entry>, e: Entry, ys: seq<Entry>, decode: Decoder)
    requires !IsSourceName(e.name)
    ensures Blocks(xs + [e] + ys, decode) == Blocks(xs + ys, decode)
  {
    BlocksAppend(xs + [e], ys, decode);
    BlocksAppend(xs, [e], decode);
    BlocksAppend(xs, ys, decode);
    assert [e][..0] == [];
  }

  /** Directory members (names ending in "/") are never source files. */
  lemma DirectoryIsSkipped(name: string)
    requires EndsWith(name, "/")
    ensures !IsSourceName(name)
  {
    forall k | 0 <= k < |SourceSuffixes| ensures !EndsWith(name, SourceSuffixes[k]) {
      var sfx := SourceSuffixes[k];
      assert sfx[|sfx| - 1] != '/';
    }
  }

  /** A member that cannot be read ends the archive's contribution: what was
      appended before it is kept and nothing after it is added. */
  lemma {:induction false} FailureKeepsEarlierBlocks(xs: seq<Entry>, e: Entry, ys: seq<Entry>, decode: Decoder)
    requires forall k :: 0 <= k < |xs| ==> !Breaks(xs[k])
    requires Breaks(e)
    ensures ArchiveText(xs + [e] + ys, decode) == Blocks(xs, decode)
  {
    var es := xs + [e] + ys;
    var n := ReadableRun(es);
    assert es[|xs|] == e;
    assert forall k :: 0 <= k < |xs| ==> es[k] == xs[k];
    assert n == |xs|;
    assert es[..n] == xs;
  }

  /** An archive in which every member can be read contributes the blocks of
      all its source members. */
  lemma FullyReadableArchive(es: seq<Entry>, decode: Decoder)
    requires forall k :: 0 <= k < |es| ==> !Breaks(es[k])
    ensures ArchiveText(es, decode) == Blocks(es, decode)
  {
    NothingBreaks(es);
    assert es[..|es|] == es;
  }

  lemma {:induction false} NothingBreaks(es: seq<Entry>)
    requires forall k :: 0 <= k < |es| ==> !Breaks(es[k])
    ensures ReadableRun(es) == |es|
  {
    if es != [] {
      assert forall k :: 0 <= k < |es| - 1 ==> es[1..][k] == es[k + 1];
      NothingBreaks(es[1..]);
    }
  }
}
