/** The two side-effecting collaborators of the article pipelines, kept as
    abstract stores: the HDFS content store behind `hdfsHelper` and the image
    scaler behind `sharpHelper`. Their streams and codecs are not modelled;
    what the core relies on is when they are skipped, which path they pick,
    and that a failure leaves an `{status, message}` error object. */
module Collaborators {
  import opened Wrappers
  import opened Responses
  import Messages

  /** The HDFS store: file contents by path. `failing` stands for a stream
      error on the next transfer. */
  class BlobStore {
    var files: map<string, string>
    var failing: bool

    constructor (files: map<string, string>, failing: bool)
      ensures this.files == files && this.failing == failing
    {
      this.files := files;
      this.failing := failing;
    }

    /** The target of an upload: the given path, or a fresh one built from
        a generated salt. */
    static function ContentPath(path: Option<string>, salt: string): (p: string)
      ensures Truthy(path) ==> p == path.value
      ensures !Truthy(path) ==> p == "articles/articles-" + salt + "-article.txt"
    {
      if Truthy(path) then path.value else "articles/articles-" + salt + "-article.txt"
    }

    /** `uploadContent(fileData, filePath)`: nothing happens for falsy data;
        otherwise the data is written to `ContentPath` and that path is the
        result, or the 422 "Write to HDFS failed" error. */
    method UploadContent(data: Option<string>, path: Option<string>, salt: string)
      returns (r: Result<Option<string>>)
      modifies this
      ensures failing == old(failing)
      ensures !Truthy(data) ==> r == Ok(None) && files == old(files)
      ensures Truthy(data) && failing ==>
                r == Fail(Error(422, Messages.HdfsWriteFailed)) && files == old(files)
      ensures Truthy(data) && !failing ==>
                r == Ok(Some(ContentPath(path, salt)))
                && files == old(files)[ContentPath(path, salt) := data.value]
    {
      if !Truthy(data) {
        return Ok(None);
      }
      var target := ContentPath(path, salt);
      if failing {
        return Fail(Error(422, Messages.HdfsWriteFailed));
      }
      files := files[target := data.value];
      r := Ok(Some(target));
    }

    /** `getFileContent(hdfsFilePath)`: nothing for a falsy path; the stored
        content, or the 422 "Read to HDFS failed" error when the stream fails
        or the file does not exist. */
    function GetFileContent(path: Option<string>): (r: Result<Option<string>>)
      reads this
      ensures !Truthy(path) ==> r == Ok(None)
      ensures Truthy(path) ==> (r.Ok? <==> !failing && path.value in files)
      ensures Truthy(path) && r.Ok? ==> r.value == Some(files[path.value])
      ensures r.Fail? ==> r.error == Error(422, Messages.HdfsReadFailed)
    {
      if !Truthy(path) then Ok(None)
      else if failing || path.value !in files then Fail(Error(422, Messages.HdfsReadFailed))
      else Ok(Some(files[path.value]))
    }
  }

  /** One entry of `imageResolutions`: the target size and, on update, the
      path already stored for that resolution type. */
  datatype ResSpec = ResSpec(height: nat, width: nat, imagePath: Option<string>)

  /** The image scaler: the paths it has written. `fault` is the message of
      the per-image failure the next call meets ("Image processing failed"
      or "Unable to upload image"), or `None` when every image succeeds. */
  class ImageDeriver {
    var written: set<string>
    var fault: Option<string>

    constructor (fault: Option<string>)
      ensures written == {} && this.fault == fault
    {
      written := {};
      this.fault := fault;
    }

    /** The file a scaled image goes to: `imagePath`, or a generated name
        under `uploads/hdfs-images/`. */
    static function ImagePath(spec: ResSpec, ext: string, salt: string): (p: string)
      ensures Truthy(spec.imagePath) ==> p == spec.imagePath.value
      ensures !Truthy(spec.imagePath) ==>
                p == "uploads/hdfs-images/" + salt + "_" + NatToString(spec.height) + "_"
                     + NatToString(spec.width) + "." + ext
    {
      if Truthy(spec.imagePath) then spec.imagePath.value
      else "uploads/hdfs-images/" + salt + "_" + NatToString(spec.height) + "_"
           + NatToString(spec.width) + "." + ext
    }

    /** The result map of a successful scaling: one path per resolution type. */
    static function ScaledPaths(spec: map<string, ResSpec>, ext: string, salt: string -> string)
      : (m: map<string, string>)
      ensures m.Keys == spec.Keys
      ensures forall t :: t in m ==> m[t] == ImagePath(spec[t], ext, salt(t))
    {
      map t | t in spec :: ImagePath(spec[t], ext, salt(t))
    }

    /** `scaleMultipleImages(base64, extension, imageResolutions)`: null when
        the image or its extension is missing; otherwise every resolution is
        written and the map of their paths returned, or, when any image
        fails, `{error}` carrying that failure's 404 object. `salt(t)` is the
        salt drawn for resolution type `t`. */
    method ScaleMultipleImages(base64: Option<string>, ext: Option<string>,
                               spec: map<string, ResSpec>, salt: string -> string)
      returns (r: Result<Option<map<string, string>>>)
      modifies this
      ensures fault == old(fault)
      ensures !Truthy(base64) || !Truthy(ext) ==> r == Ok(None) && written == old(written)
      ensures Truthy(base64) && Truthy(ext) && fault.Some? ==>
                r == Fail(Error(404, fault.value)) && written == old(written)
      ensures Truthy(base64) && Truthy(ext) && fault.None? ==>
                r == Ok(Some(ScaledPaths(spec, ext.value, salt)))
                && written == old(written) + ScaledPaths(spec, ext.value, salt).Values
    {
      if !Truthy(base64) || !Truthy(ext) {
        return Ok(None);
      }
      if fault.Some? {
        return Fail(Error(404, fault.value));
      }
      var paths := ScaledPaths(spec, ext.value, salt);
      written := written + paths.Values;
      r := Ok(Some(paths));
    }
  }
}
