/** The deterministic part of the Moonraker API layer: the requests it
    builds, the decoding of file-list and file-metadata replies, the homing
    G-code template, and the extraction of printer-ready and print-state
    answers. A decoding step that would throw (a get<>() on a value of the
    wrong kind) yields None. Floating-point fields are checked for their
    kind but their values are not carried. */
module MoonrakerApi {
  import opened Common
  import opened Json
  import MoonrakerClient

  /** A request handed to the client: method name and params object. */
  datatype RpcCall = RpcCall(rpcMethod: string, params: Json)

  datatype FileInfo = FileInfo(filename: string, path: string, size: nat, permissions: string, isDir: bool)

  datatype FileMetadata = FileMetadata(
    filename: string,
    size: nat,
    slicer: string,
    slicerVersion: string,
    layerCount: nat,
    gcodeStartByte: nat,
    gcodeEndByte: nat,
    thumbnails: seq<string>)

  const DefaultMetadata := FileMetadata("", 0, "", "", 0, 0, 0, [])

  // ---------------------------------------------------------------------
  // Requests
  // ---------------------------------------------------------------------

  /** list_files: "root" always, "path" only when non-empty, "extended": true
      only when recursive. */
  function ListFilesCall(root: string, path: string, recursive: bool): (c: RpcCall)
    ensures c.rpcMethod == "server.files.list" && c.params.JObj? && WellFormedObject(c.params)
    ensures Member(c.params, "root") == Some(JStr(root))
    ensures Member(c.params, "path") == if path != "" then Some(JStr(path)) else None
    ensures Member(c.params, "extended") == if recursive then Some(JBool(true)) else None
    ensures KeySet(c.params.members) ==
      {"root"} + (if path != "" then {"path"} else {}) + (if recursive then {"extended"} else {})
  {
    var m1 := RootMember(root);
    var m2 := WithPath(m1, path);
    var m3 := WithExtended(m2, recursive);
    RpcCall("server.files.list", JObj(m3))
  }

  function RootMember(root: string): (m: seq<(string, Json)>)
    ensures KeysAscending(m) && KeySet(m) == {"root"} && Lookup(m, "root") == Some(JStr(root))
  {
    Put([], "root", JStr(root))
  }

  function WithPath(m: seq<(string, Json)>, path: string): (r: seq<(string, Json)>)
    requires KeysAscending(m) && KeySet(m) == {"root"}
    ensures KeysAscending(r) && Lookup(r, "root") == Lookup(m, "root")
    ensures KeySet(r) == {"root"} + (if path != "" then {"path"} else {})
    ensures Lookup(r, "path") == if path != "" then Some(JStr(path)) else None
  {
    assert "root" != "path";
    if path != "" then Put(m, "path", JStr(path)) else m
  }

  function WithExtended(m: seq<(string, Json)>, recursive: bool): (r: seq<(string, Json)>)
    requires KeysAscending(m) && "extended" !in KeySet(m)
    ensures KeysAscending(r) && Lookup(r, "root") == Lookup(m, "root") && Lookup(r, "path") == Lookup(m, "path")
    ensures KeySet(r) == KeySet(m) + (if recursive then {"extended"} else {})
    ensures Lookup(r, "extended") == if recursive then Some(JBool(true)) else None
  {
    assert "root" != "extended" && "path" != "extended";
    if recursive then Put(m, "extended", JBool(true)) else m
  }

  function FileMetadataCall(filename: string): (c: RpcCall)
    ensures c.rpcMethod == "server.files.metadata" && c.params.JObj?
    ensures KeySet(c.params.members) == {"filename"} && Member(c.params, "filename") == Some(JStr(filename))
  {
    RpcCall("server.files.metadata", JObj(Put([], "filename", JStr(filename))))
  }

  /** execute_gcode: the script travels as the client's {"script": gcode}
      params object, under gcode_script's method name. */
  function ExecuteGcodeCall(gcode: string): (c: RpcCall)
    ensures c.rpcMethod == "printer.gcode.script" && c.params == MoonrakerClient.ScriptParams(gcode)
    ensures KeySet(c.params.members) == {"script"} && Member(c.params, "script") == Some(JStr(gcode))
  {
    RpcCall(MoonrakerClient.GcodeScriptMethod, MoonrakerClient.ScriptParams(gcode))
  }

  /** home_axes: the homing G-code sent through execute_gcode. */
  function HomeAxesCall(axes: string): (c: RpcCall)
    ensures c == ExecuteGcodeCall(HomeGcode(axes))
    ensures Member(c.params, "script") == Some(JStr(HomeGcode(axes)))
  {
    ExecuteGcodeCall(HomeGcode(axes))
  }

  function PrinterInfoCall(): (c: RpcCall)
    ensures c.rpcMethod == "printer.info" && c.params == JObj([])
  {
    RpcCall("printer.info", JObj([]))
  }


  /** get_print_state asks for {"objects": {"print_stats": null}}. */
  function PrintStateCall(): (c: RpcCall)
    ensures c.rpcMethod == "printer.objects.query"
    ensures Member(c.params, "objects").Some? && Member(Member(c.params, "objects").value, "print_stats") == Some(JNull)
  {
    RpcCall("printer.objects.query", JObj([("objects", JObj([("print_stats", JNull)]))]))
  }

  // ---------------------------------------------------------------------
  // Homing G-code
  // ---------------------------------------------------------------------

  /** "G28", then " " and the upper-cased axis letter for each axis. */
  function HomeGcode(axes: string): (g: string)
  {
    if |axes| == 0 then "G28" else HomeGcode(axes[..|axes| - 1]) + [' ', ToUpper(axes[|axes| - 1])]
  }

  lemma {:induction false} HomeGcodeShape(axes: string)
    ensures var g := HomeGcode(axes);
      |g| == 3 + 2 * |axes| && g[..3] == "G28" &&
      forall k :: 0 <= k < |axes| ==> g[3 + 2 * k] == ' ' && g[4 + 2 * k] == ToUpper(axes[k])
  {
    if |axes| > 0 {
      var p := axes[..|axes| - 1];
      HomeGcodeShape(p);
      var g := HomeGcode(axes);
      assert g[..|HomeGcode(p)|] == HomeGcode(p);
      forall k | 0 <= k < |axes| ensures g[3 + 2 * k] == ' ' && g[4 + 2 * k] == ToUpper(axes[k]) {
        if k < |p| {
          assert axes[k] == p[k];
        }
      }
    }
  }

  /** generate_home_gcode: the ostringstream loop. */
  method GenerateHomeGcode(axes: string) returns (g: string)
    ensures g == HomeGcode(axes)
  {
    if |axes| == 0 {
      return "G28";
    }
    g := "G28";
    var i := 0;
    while i < |axes|
      invariant 0 <= i <= |axes|
      invariant g == HomeGcode(axes[..i])
    {
      g := g + [' ', ToUpper(axes[i])];
      i := i + 1;
      assert axes[..i][..i - 1] == axes[..i - 1];
    }
    assert axes[..i] == axes;
  }

  // ---------------------------------------------------------------------
  // Field access with nlohmann's conversions
  // ---------------------------------------------------------------------

  /** The string under `key`, `dflt` when absent, None when it is not a string. */
  function OptString(o: Json, key: string, dflt: string): (r: Option<string>)
    ensures !Has(o, key) ==> r == Some(dflt)
    ensures Has(o, key) ==> (r.Some? <==> Member(o, key).value.JStr?)
    ensures Has(o, key) && r.Some? ==> Member(o, key) == Some(JStr(r.value))
  {
    if !Has(o, key) then Some(dflt)
    else match AsString(Member(o, key).value)
      case Ok(s) => Some(s)
      case Err(_) => None
  }

  /** get<uint64_t>() on `key`: 0 when absent, the number modulo 2^64 when
      it is a number, None (a throw) for any other kind, booleans included. */
  function OptU64(o: Json, key: string): (r: Option<nat>)
    ensures !Has(o, key) ==> r == Some(0)
    ensures Has(o, key) ==> (r.Some? <==> Member(o, key).value.JNum?)
    ensures Has(o, key) && r.Some? ==> r.value == Member(o, key).value.n % U64
    ensures r.Some? ==> r.value < U64
  {
    if !Has(o, key) then Some(0)
    else match AsU64(Member(o, key).value)
      case Ok(n) => Some(n)
      case Err(_) => None
  }

  /** get<uint32_t>() on `key`: 0 when absent, the number modulo 2^32, a
      boolean as 0 or 1, None (a throw) for any other kind. */
  function OptU32(o: Json, key: string): (r: Option<nat>)
    ensures !Has(o, key) ==> r == Some(0)
    ensures Has(o, key) ==> (r.Some? <==> Member(o, key).value.JNum? || Member(o, key).value.JBool?)
    ensures Has(o, key) && Member(o, key).value.JNum? ==> r == Some(Member(o, key).value.n % U32)
    ensures Has(o, key) && Member(o, key).value.JBool? ==> r == Some(if Member(o, key).value.b then 1 else 0)
  {
    if !Has(o, key) then Some(0)
    else match AsUnsigned(Member(o, key).value, U32)
      case Ok(n) => Some(n)
      case Err(_) => None
  }

  /** get<double>() on `key` succeeds when the key is absent or holds a
      number; a boolean or any other kind throws. */
  predicate ArithmeticOk(o: Json, key: string)
  {
    !Has(o, key) || IsArithmetic(Member(o, key).value)
  }

  // ---------------------------------------------------------------------
  // parse_file_list
  // ---------------------------------------------------------------------

  /** One "dirs" item. */
  function DirEntry(d: Json): Option<FileInfo>
  {
    var name := OptString(d, "dirname", "");
    var perms := OptString(d, "permissions", "");
    if name.None? || !ArithmeticOk(d, "modified") || perms.None? then None
    else Some(FileInfo(name.value, "", 0, perms.value, Has(d, "dirname")))
  }

  /** A directory entry is marked as a directory exactly when "dirname" is
      present; its fields come from the keys that exist, defaults otherwise;
      and the conversion fails exactly when a present key has the wrong kind. */
  lemma DirEntryFields(d: Json)
    ensures var r := DirEntry(d);
      (r.None? <==> OptString(d, "dirname", "").None? || !ArithmeticOk(d, "modified") || OptString(d, "permissions", "").None?) &&
      (r.Some? ==>
        r.value.isDir == Has(d, "dirname") && r.value.path == "" && r.value.size == 0 &&
        Some(r.value.filename) == OptString(d, "dirname", "") &&
        Some(r.value.permissions) == OptString(d, "permissions", ""))
  {
  }

  /** One "files" item. */
  function FileEntry(f: Json): Option<FileInfo>
  {
    var name := OptString(f, "filename", "");
    var path := OptString(f, "path", "");
    var size := OptU64(f, "size");
    var perms := OptString(f, "permissions", "");
    if name.None? || path.None? || size.None? || !ArithmeticOk(f, "modified") || perms.None? then None
    else Some(FileInfo(name.value, path.value, size.value, perms.value, false))
  }

  /** A file entry is never a directory; each field comes from its key when
      present, the default otherwise; and the conversion fails exactly when a
      present key has the wrong kind. */
  lemma FileEntryFields(f: Json)
    ensures var r := FileEntry(f);
      (r.None? <==>
        OptString(f, "filename", "").None? || OptString(f, "path", "").None? ||
        OptU64(f, "size").None? || !ArithmeticOk(f, "modified") || OptString(f, "permissions", "").None?) &&
      (r.Some? ==>
        !r.value.isDir && r.value.size < U64 &&
        Some(r.value.filename) == OptString(f, "filename", "") &&
        Some(r.value.path) == OptString(f, "path", "") &&
        Some(r.value.size) == OptU64(f, "size") &&
        Some(r.value.permissions) == OptString(f, "permissions", ""))
  {
  }

  /** A boolean "size" or "modified" makes get<uint64_t>() or get<double>()
      throw, so the entry does not convert; a boolean "modified" does the
      same to a directory entry. */
  lemma BooleanNumbersThrow(f: Json)
    requires f.JObj?
    ensures Has(f, "size") && Member(f, "size").value.JBool? ==> FileEntry(f).None?
    ensures Has(f, "modified") && Member(f, "modified").value.JBool? ==> FileEntry(f).None? && DirEntry(f).None?
  {
  }

  /** {"result": {"files": [{"filename": "a", "size": true}]}} does not
      decode: get<uint64_t>() throws on the boolean, so list_files' reply
      handler passes an empty list rather than an entry of size 1. */
  lemma BooleanSizeRejected()
    ensures var entry := JObj([("filename", JStr("a")), ("size", JBool(true))]);
      FileList(JObj([("result", JObj([("files", JArr([entry]))]))])).None?
  {
    var entry := JObj([("filename", JStr("a")), ("size", JBool(true))]);
    assert Lookup(entry.members, "size") == Some(JBool(true));
    assert FileEntry(entry).None?;
    var result := JObj([("files", JArr([entry]))]);
    var response := JObj([("result", result)]);
    assert response.members[0].0 == "result";
    assert Has(response, "result") && ResultOf(response) == result;
    assert result.members[0].0 == "files";
    assert KeySet(result.members) == {"files"};
    assert Listed(result, "dirs") == [];
    assert Listed(result, "files") == [entry];
    assert ConvertAll([entry], false).None?;
  }

  function Entry(j: Json, dir: bool): Option<FileInfo>
  {
    if dir then DirEntry(j) else FileEntry(j)
  }

  /** Converting items one after another; the first failure aborts. */
  function ConvertAll(items: seq<Json>, dir: bool): Option<seq<FileInfo>>
  {
    if |items| == 0 then Some([])
    else match ConvertAll(items[..|items| - 1], dir)
      case None => None
      case Some(p) =>
        match Entry(items[|items| - 1], dir)
        case None => None
        case Some(x) => Some(p + [x])
  }

  /** The items under `key`, none when the key is absent. */
  function Listed(result: Json, key: string): seq<Json>
  {
    if Has(result, key) then Elements(Member(result, key).value) else []
  }

  function ResultOf(response: Json): Json
    requires Has(response, "result")
  {
    Member(response, "result").value
  }

  /** parse_file_list: directories first, then files. */
  function FileList(response: Json): Option<seq<FileInfo>>
  {
    if !Has(response, "result") then Some([])
    else
      var result := ResultOf(response);
      match ConvertAll(Listed(result, "dirs"), true)
      case None => None
      case Some(ds) =>
        match ConvertAll(Listed(result, "files"), false)
        case None => None
        case Some(fs) => Some(ds + fs)
  }

  /** ConvertAll succeeds exactly when every item converts, and then it
      holds each item's conversion in item order. */
  lemma {:induction false} ConvertAllElementwise(items: seq<Json>, dir: bool)
    ensures ConvertAll(items, dir).Some? <==> forall i :: 0 <= i < |items| ==> Entry(items[i], dir).Some?
    ensures ConvertAll(items, dir).Some? ==>
      |ConvertAll(items, dir).value| == |items| &&
      forall i :: 0 <= i < |items| ==> Entry(items[i], dir) == Some(ConvertAll(items, dir).value[i])
  {
    if |items| > 0 {
      var p := items[..|items| - 1];
      ConvertAllElementwise(p, dir);
      assert forall i :: 0 <= i < |p| ==> items[i] == p[i];
    }
  }

  /** The decoded list: empty without "result"; otherwise one entry per
      directory item, in order, followed by one entry per file item. */
  lemma FileListShape(response: Json)
    ensures !Has(response, "result") ==> FileList(response) == Some([])
    ensures Has(response, "result") ==>
      var dirs := Listed(ResultOf(response), "dirs");
      var files := Listed(ResultOf(response), "files");
      (FileList(response).Some? <==>
        (forall i :: 0 <= i < |dirs| ==> DirEntry(dirs[i]).Some?) &&
        (forall i :: 0 <= i < |files| ==> FileEntry(files[i]).Some?)) &&
      (FileList(response).Some? ==>
        var r := FileList(response).value;
        |r| == |dirs| + |files| &&
        (forall i :: 0 <= i < |dirs| ==> DirEntry(dirs[i]) == Some(r[i])) &&
        (forall i :: 0 <= i < |files| ==> FileEntry(files[i]) == Some(r[|dirs| + i])))
  {
    if Has(response, "result") {
      var result := ResultOf(response);
      var dirs := Listed(result, "dirs");
      var files := Listed(result, "files");
      ConvertAllElementwise(dirs, true);
      ConvertAllElementwise(files, false);
      if FileList(response).Some? {
        var ds := ConvertAll(dirs, true).value;
        var fs := ConvertAll(files, false).value;
        assert FileList(response).value == ds + fs;
        ConcatEntries(dirs, files, ds, fs);
      }
    }
  }

  lemma ConcatEntries(dirs: seq<Json>, files: seq<Json>, ds: seq<FileInfo>, fs: seq<FileInfo>)
    requires |ds| == |dirs| && |fs| == |files|
    requires forall i :: 0 <= i < |dirs| ==> Entry(dirs[i], true) == Some(ds[i])
    requires forall i :: 0 <= i < |files| ==> Entry(files[i], false) == Some(fs[i])
    ensures |ds + fs| == |dirs| + |files|
    ensures forall i :: 0 <= i < |dirs| ==> DirEntry(dirs[i]) == Some((ds + fs)[i])
    ensures forall i :: 0 <= i < |files| ==> FileEntry(files[i]) == Some((ds + fs)[|dirs| + i])
  {
    forall i | 0 <= i < |dirs| ensures DirEntry(dirs[i]) == Some((ds + fs)[i]) {
      assert Entry(dirs[i], true) == DirEntry(dirs[i]);
    }
    forall i | 0 <= i < |files| ensures FileEntry(files[i]) == Some((ds + fs)[|dirs| + i]) {
      assert Entry(files[i], false) == FileEntry(files[i]);
      assert (ds + fs)[|ds| + i] == fs[i];
    }
  }

  lemma ConcatIndex<T>(a: seq<T>, b: seq<T>)
    ensures |a + b| == |a| + |b|
    ensures forall i :: 0 <= i < |a| ==> (a + b)[i] == a[i]
    ensures forall i :: 0 <= i < |b| ==> (a + b)[|a| + i] == b[i]
  {
  }

  lemma ConvertAllStep(items: seq<Json>, i: int, dir: bool)
    requires 0 <= i < |items|
    ensures ConvertAll(items[..i + 1], dir) ==
      match ConvertAll(items[..i], dir)
      case None => None
      case Some(p) => (match Entry(items[i], dir) case None => None case Some(x) => Some(p + [x]))
  {
    assert items[..i + 1][..i] == items[..i];
  }

  /** Once a prefix fails, every longer prefix fails. */
  lemma {:induction false} ConvertAllFailureSticks(items: seq<Json>, i: int, dir: bool)
    requires 0 <= i <= |items| && ConvertAll(items[..i], dir).None?
    ensures ConvertAll(items, dir).None?
    decreases |items| - i
  {
    if i < |items| {
      ConvertAllStep(items, i, dir);
      ConvertAllFailureSticks(items, i + 1, dir);
    } else {
      assert items[..i] == items;
    }
  }

  /** The range-for over one list, pushing each converted entry. */
  method AppendAll(items: seq<Json>, dir: bool, acc: seq<FileInfo>) returns (r: Option<seq<FileInfo>>)
    ensures r == match ConvertAll(items, dir) case None => None case Some(xs) => Some(acc + xs)
  {
    var out := acc;
    var i := 0;
    while i < |items|
      invariant 0 <= i <= |items|
      invariant ConvertAll(items[..i], dir).Some?
      invariant out == acc + ConvertAll(items[..i], dir).value
    {
      ConvertAllStep(items, i, dir);
      var e := if dir then DirEntry(items[i]) else FileEntry(items[i]);
      if e.None? {
        ConvertAllFailureSticks(items, i + 1, dir);
        return None;
      }
      out := out + [e.value];
      i := i + 1;
    }
    assert items[..i] == items;
    return Some(out);
  }

  /** parse_file_list (None: a conversion threw). */
  method ParseFileList(response: Json) returns (r: Option<seq<FileInfo>>)
    ensures r == FileList(response)
  {
    if !Has(response, "result") {
      return Some([]);
    }
    var result := Member(response, "result").value;
    assert result == ResultOf(response);
    assert ConvertAll([], true) == Some([]) && ConvertAll([], false) == Some([]);
    assert !Has(result, "dirs") ==> Listed(result, "dirs") == [];
    assert !Has(result, "files") ==> Listed(result, "files") == [];
    var files: seq<FileInfo> := [];
    if Has(result, "dirs") {
      var d := AppendAll(Elements(Member(result, "dirs").value), true, files);
      if d.None? {
        return None;
      }
      files := d.value;
    }
    assert files == ConvertAll(Listed(result, "dirs"), true).value;
    if Has(result, "files") {
      var f := AppendAll(Elements(Member(result, "files").value), false, files);
      if f.None? {
        return None;
      }
      files := f.value;
    }
    assert files == ConvertAll(Listed(result, "dirs"), true).value + ConvertAll(Listed(result, "files"), false).value;
    return Some(files);
  }

  /** list_files' reply handler: a conversion failure still reaches
      on_success, with an empty list. */
  method ListFilesReply(response: Json) returns (files: seq<FileInfo>)
    ensures FileList(response).Some? ==> files == FileList(response).value
    ensures FileList(response).None? ==> files == []
  {
    var parsed := ParseFileList(response);
    files := if parsed.Some? then parsed.value else [];
  }

  // ---------------------------------------------------------------------
  // parse_file_metadata
  // ---------------------------------------------------------------------

  /** The relative paths of the thumbnail items that have one, in order. */
  function ThumbPaths(items: seq<Json>): Option<seq<string>>
  {
    if |items| == 0 then Some([])
    else match ThumbPaths(items[..|items| - 1])
      case None => None
      case Some(p) =>
        var t := items[|items| - 1];
        if !Has(t, "relative_path") then Some(p)
        else match AsString(Member(t, "relative_path").value)
          case Err(_) => None
          case Ok(s) => Some(p + [s])
  }

  /** The positions of the items that carry "relative_path", ascending. */
  function PathIndices(items: seq<Json>): (ix: seq<nat>)
    ensures forall k :: 0 <= k < |ix| ==> ix[k] < |items| && Has(items[ix[k]], "relative_path")
    ensures forall a, b :: 0 <= a < b < |ix| ==> ix[a] < ix[b]
    ensures forall i :: 0 <= i < |items| && Has(items[i], "relative_path") ==> i in ix
  {
    if |items| == 0 then []
    else
      var p := PathIndices(items[..|items| - 1]);
      if Has(items[|items| - 1], "relative_path") then p + [|items| - 1] else p
  }

  /** parse_file_metadata keeps, in order, exactly the relative paths of the
      thumbnail items that have one. */
  lemma {:induction false} ThumbPathsSelect(items: seq<Json>)
    requires ThumbPaths(items).Some?
    ensures var ps := ThumbPaths(items).value; var ix := PathIndices(items);
      |ps| == |ix| && forall k :: 0 <= k < |ix| ==> Member(items[ix[k]], "relative_path") == Some(JStr(ps[k]))
  {
    if |items| > 0 {
      var p := items[..|items| - 1];
      ThumbPathsSelect(p);
      assert forall i :: 0 <= i < |p| ==> items[i] == p[i];
    }
  }

  /** The scalar fields of the metadata reply, thumbnails left empty. */
  function MetadataFields(result: Json): Option<FileMetadata>
  {
    var filename := OptString(result, "filename", "");
    var size := OptU64(result, "size");
    var slicer := OptString(result, "slicer", "");
    var slicerVersion := OptString(result, "slicer_version", "");
    var layerCount := OptU32(result, "layer_count");
    var startByte := OptU64(result, "gcode_start_byte");
    var endByte := OptU64(result, "gcode_end_byte");
    var doublesOk :=
      ArithmeticOk(result, "modified") && ArithmeticOk(result, "print_start_time") &&
      ArithmeticOk(result, "job_id") && ArithmeticOk(result, "object_height") &&
      ArithmeticOk(result, "estimated_time") && ArithmeticOk(result, "filament_total") &&
      ArithmeticOk(result, "filament_weight_total") && ArithmeticOk(result, "first_layer_bed_temp") &&
      ArithmeticOk(result, "first_layer_extr_temp");
    if filename.None? || size.None? || slicer.None? || slicerVersion.None? || layerCount.None? ||
       startByte.None? || endByte.None? || !doublesOk then None
    else Some(FileMetadata(filename.value, size.value, slicer.value, slicerVersion.value,
                           layerCount.value, startByte.value, endByte.value, []))
  }

  /** parse_file_metadata. */
  function Metadata(response: Json): (r: Option<FileMetadata>)
    ensures !Has(response, "result") ==> r == Some(DefaultMetadata)
  {
    if !Has(response, "result") then Some(DefaultMetadata)
    else
      var result := ResultOf(response);
      match MetadataFields(result)
      case None => None
      case Some(m) =>
        match ThumbPaths(Listed(result, "thumbnails"))
        case None => None
        case Some(ts) => Some(m.(thumbnails := ts))
  }

  /** The decoded metadata: the defaults without "result"; otherwise each
      scalar field comes from its key when present and the default when
      absent, the thumbnails are the relative paths in order, and the parse
      throws exactly when a present key has the wrong kind (a boolean for a
      uint64_t or double field included). */
  lemma MetadataShape(response: Json)
    ensures !Has(response, "result") ==> Metadata(response) == Some(DefaultMetadata)
    ensures Has(response, "result") ==>
      var result := ResultOf(response);
      (Metadata(response).None? <==>
        OptString(result, "filename", "").None? || OptU64(result, "size").None? ||
        OptString(result, "slicer", "").None? || OptString(result, "slicer_version", "").None? ||
        OptU32(result, "layer_count").None? || OptU64(result, "gcode_start_byte").None? ||
        OptU64(result, "gcode_end_byte").None? ||
        !ArithmeticOk(result, "modified") || !ArithmeticOk(result, "print_start_time") ||
        !ArithmeticOk(result, "job_id") || !ArithmeticOk(result, "object_height") ||
        !ArithmeticOk(result, "estimated_time") || !ArithmeticOk(result, "filament_total") ||
        !ArithmeticOk(result, "filament_weight_total") || !ArithmeticOk(result, "first_layer_bed_temp") ||
        !ArithmeticOk(result, "first_layer_extr_temp") ||
        ThumbPaths(Listed(result, "thumbnails")).None?) &&
      (Metadata(response).Some? ==>
        var m := Metadata(response).value;
        Some(m.filename) == OptString(result, "filename", "") &&
        Some(m.size) == OptU64(result, "size") &&
        Some(m.slicer) == OptString(result, "slicer", "") &&
        Some(m.slicerVersion) == OptString(result, "slicer_version", "") &&
        Some(m.layerCount) == OptU32(result, "layer_count") &&
        Some(m.gcodeStartByte) == OptU64(result, "gcode_start_byte") &&
        Some(m.gcodeEndByte) == OptU64(result, "gcode_end_byte") &&
        Some(m.thumbnails) == ThumbPaths(Listed(result, "thumbnails")))
  {
  }

  lemma ThumbPathsStep(items: seq<Json>, i: int)
    requires 0 <= i < |items|
    ensures ThumbPaths(items[..i + 1]) ==
      match ThumbPaths(items[..i])
      case None => None
      case Some(p) =>
        if !Has(items[i], "relative_path") then Some(p)
        else (match AsString(Member(items[i], "relative_path").value) case Err(_) => None case Ok(s) => Some(p + [s]))
  {
    assert items[..i + 1][..i] == items[..i];
  }

  lemma {:induction false} ThumbPathsFailureSticks(items: seq<Json>, i: int)
    requires 0 <= i <= |items| && ThumbPaths(items[..i]).None?
    ensures ThumbPaths(items).None?
    decreases |items| - i
  {
    if i < |items| {
      ThumbPathsStep(items, i);
      ThumbPathsFailureSticks(items, i + 1);
    } else {
      assert items[..i] == items;
    }
  }

  /** The range-for over "thumbnails". */
  method CollectThumbnails(items: seq<Json>) returns (r: Option<seq<string>>)
    ensures r == ThumbPaths(items)
  {
    var paths: seq<string> := [];
    var i := 0;
    while i < |items|
      invariant 0 <= i <= |items|
      invariant ThumbPaths(items[..i]) == Some(paths)
    {
      ThumbPathsStep(items, i);
      var thumb := items[i];
      if Has(thumb, "relative_path") {
        var s := AsString(Member(thumb, "relative_path").value);
        if s.Err? {
          ThumbPathsFailureSticks(items, i + 1);
          return None;
        }
        paths := paths + [s.value];
      }
      i := i + 1;
    }
    assert items[..i] == items;
    return Some(paths);
  }

  /** parse_file_metadata (None: a conversion threw). */
  method ParseFileMetadata(response: Json) returns (r: Option<FileMetadata>)
    ensures r == Metadata(response)
  {
    if !Has(response, "result") {
      return Some(DefaultMetadata);
    }
    var result := Member(response, "result").value;
    var fields := MetadataFields(result);
    if fields.None? {
      return None;
    }
    var thumbs: Option<seq<string>> := Some([]);
    if Has(result, "thumbnails") {
      thumbs := CollectThumbnails(Elements(Member(result, "thumbnails").value));
    }
    if thumbs.None? {
      return None;
    }
    return Some(fields.value.(thumbnails := thumbs.value));
  }

  /** get_file_metadata's reply handler: a conversion failure still reaches
      on_success, with default metadata. */
  method FileMetadataReply(response: Json) returns (m: FileMetadata)
    ensures Metadata(response).Some? ==> m == Metadata(response).value
    ensures Metadata(response).None? ==> m == DefaultMetadata
  {
    var parsed := ParseFileMetadata(response);
    m := if parsed.Some? then parsed.value else DefaultMetadata;
  }

  // ---------------------------------------------------------------------
  // Query replies
  // ---------------------------------------------------------------------

  /** The value at a chain of keys, None as soon as one is missing. */
  function AtPath(j: Json, keys: seq<string>): (r: Option<Json>)
    ensures |keys| == 0 ==> r == Some(j)
  {
    if |keys| == 0 then Some(j)
    else if !Has(j, keys[0]) then None
    else AtPath(Member(j, keys[0]).value, keys[1..])
  }

  /** is_printer_ready: Ok(ready), or Err when result.state is not a string. */
  function PrinterReady(response: Json): (r: Result<bool, TypeError>)
    ensures r == Ok(true) <==> AtPath(response, ["result", "state"]) == Some(JStr("ready"))
    ensures AtPath(response, ["result", "state"]).None? ==> r == Ok(false)
    ensures r.Err? <==> AtPath(response, ["result", "state"]).Some? && !AtPath(response, ["result", "state"]).value.JStr?
  {
    var path := ["result", "state"];
    assert path[1..] == ["state"];
    assert path[1..][1..] == [];
    if Has(response, "result") && Has(ResultOf(response), "state") then
      var st := Member(ResultOf(response), "state").value;
      assert AtPath(response, path) == Some(st) by {
        AtPathCons(response, path);
        AtPathCons(ResultOf(response), path[1..]);
      }
      match AsString(st)
      case Ok(s) => Ok(s == "ready")
      case Err(e) => Err(e)
    else
      assert AtPath(response, path).None? by {
        AtPathCons(response, path);
        if Has(response, "result") {
          AtPathCons(ResultOf(response), path[1..]);
        }
      }
      Ok(false)
  }

  lemma AtPathCons(j: Json, keys: seq<string>)
    requires |keys| > 0
    ensures AtPath(j, keys) == if Has(j, keys[0]) then AtPath(Member(j, keys[0]).value, keys[1..]) else None
  {
  }

  /** get_print_state: result.status.print_stats.state, "unknown" when any
      step is missing, Err when it is not a string. */
  function PrintState(response: Json): (r: Result<string, TypeError>)
    ensures AtPath(response, ["result", "status", "print_stats", "state"]).None? ==> r == Ok("unknown")
    ensures AtPath(response, ["result", "status", "print_stats", "state"]).Some? ==>
      r == AsString(AtPath(response, ["result", "status", "print_stats", "state"]).value)
  {
    var path := ["result", "status", "print_stats", "state"];
    assert path[1..] == ["status", "print_stats", "state"];
    assert path[1..][1..] == ["print_stats", "state"];
    assert path[1..][1..][1..] == ["state"];
    assert path[1..][1..][1..][1..] == [];
    if Has(response, "result") then
      var result := ResultOf(response);
      if Has(result, "status") then
        var status := Member(result, "status").value;
        if Has(status, "print_stats") then
          var stats := Member(status, "print_stats").value;
          if Has(stats, "state") then
            var st := Member(stats, "state").value;
            assert AtPath(response, path) == Some(st) by {
              AtPathCons(response, path);
              AtPathCons(result, path[1..]);
              AtPathCons(status, path[1..][1..]);
              AtPathCons(stats, path[1..][1..][1..]);
            }
            AsString(st)
          else
            assert AtPath(response, path).None? by {
              AtPathCons(response, path);
              AtPathCons(result, path[1..]);
              AtPathCons(status, path[1..][1..]);
              AtPathCons(stats, path[1..][1..][1..]);
            }
            Ok("unknown")
        else
          assert AtPath(response, path).None? by {
            AtPathCons(response, path);
            AtPathCons(result, path[1..]);
            AtPathCons(status, path[1..][1..]);
          }
          Ok("unknown")
      else
        assert AtPath(response, path).None? by {
          AtPathCons(response, path);
          AtPathCons(result, path[1..]);
        }
        Ok("unknown")
    else
      assert AtPath(response, path).None? by { AtPathCons(response, path); }
      Ok("unknown")
  }
}
