/** The two allow-list validators: the audio-extension check that guards
    `get_file_content`, and `_check_response_format`. */
module Validation {

  import opened Wrappers
  import opened Errors
  import opened FileType

  /** File types the transcription service accepts, compared exactly
      (case-sensitive) with the extracted file type. */
  const AudioExtensions: seq<string> := ["mp3", "mp4", "mpeg", "mpga", "m4a", "wav", "webm"]

  /** Response formats the transcription service accepts. */
  const ResponseFormats: seq<string> := ["json", "text", "srt", "verbose_json", "vtt"]

  /** Stand-in for the file handle `get_file_content` opens: the model keeps
      only the name of the file that would be opened. */
  datatype FileRef = FileRef(path: string)

  /** The audio formats of the allow-list, as an enumeration. */
  datatype AudioType = Mp3 | Mp4 | Mpeg | Mpga | M4a | Wav | Webm

  function AudioTypeExtension(t: AudioType): string
  {
    match t
    case Mp3 => "mp3"
    case Mp4 => "mp4"
    case Mpeg => "mpeg"
    case Mpga => "mpga"
    case M4a => "m4a"
    case Wav => "wav"
    case Webm => "webm"
  }

  /** The response formats of the allow-list, as an enumeration. */
  datatype ResponseFormat = Json | Text | Srt | VerboseJson | Vtt

  function ResponseFormatName(f: ResponseFormat): string
  {
    match f
    case Json => "json"
    case Text => "text"
    case Srt => "srt"
    case VerboseJson => "verbose_json"
    case Vtt => "vtt"
  }

  /** The extension check of `get_file_content`: the file is accepted exactly
      when its file type is on the allow-list, and is then handed on. */
  function GetFileContent(fileName: string): (r: Result<FileRef, Error>)
    ensures r.Success? <==> GetFileType(fileName) in AudioExtensions
    ensures r.Success? ==> r.value == FileRef(fileName)
    ensures r.Failure? ==> r.error == UnsupportedFileType
  {
    if GetFileType(fileName) !in AudioExtensions then Failure(UnsupportedFileType)
    else Success(FileRef(fileName))
  }

  /** `_check_response_format`: an absent format passes as absent, an
      allowed format passes unchanged, any other string is refused. */
  function CheckResponseFormat(format: Option<string>): (r: Result<Option<string>, Error>)
    ensures format.None? ==> r == Success(None)
    ensures r.Success? <==> format.None? || format.value in ResponseFormats
    ensures r.Success? ==> r.value == format
    ensures r.Failure? ==> r.error == UnsupportedResponseFormat
  {
    match format
    case None => Success(None)
    case Some(f) =>
      if f in ResponseFormats then Success(Some(f))
      else Failure(UnsupportedResponseFormat)
  }

  /** `fileName` is the extension of `t` itself or ends with '.' and that extension. */
  predicate NamesAudioType(fileName: string, t: AudioType) {
    fileName == AudioTypeExtension(t) || IsSuffix([Dot] + AudioTypeExtension(t), fileName)
  }

  /** The allow-list holds exactly the extensions of the enumerated audio types. */
  lemma AudioExtensionsEnumerated(e: string)
    ensures e in AudioExtensions <==> exists t: AudioType :: AudioTypeExtension(t) == e
  {
    if e in AudioExtensions {
      var t :| t in [Mp3, Mp4, Mpeg, Mpga, M4a, Wav, Webm] && AudioTypeExtension(t) == e;
    }
  }

  /** The file check accepts a name exactly when the name is one of the
      allowed extensions itself or ends with '.' followed by one. */
  lemma GetFileContentAccepts(fileName: string)
    ensures GetFileContent(fileName).Success? <==> exists t: AudioType :: NamesAudioType(fileName, t)
  {
    var ext := GetFileType(fileName);
    AudioExtensionsEnumerated(ext);
    if ext in AudioExtensions {
      var t: AudioType :| AudioTypeExtension(t) == ext;
      FileTypeIs(fileName, ext);
      assert NamesAudioType(fileName, t);
    }
    if t: AudioType :| NamesAudioType(fileName, t) {
      FileTypeIs(fileName, AudioTypeExtension(t));
      assert AudioTypeExtension(t) == ext;
    }
  }

  /** A present response format passes exactly when it names one of the
      enumerated formats. */
  lemma CheckResponseFormatAccepts(s: string)
    ensures CheckResponseFormat(Some(s)).Success? <==>
      exists f: ResponseFormat :: ResponseFormatName(f) == s
  {
    if s in ResponseFormats {
      var f :| f in [Json, Text, Srt, VerboseJson, Vtt] && ResponseFormatName(f) == s;
    }
  }

  /** Checking an already checked format changes nothing. */
  lemma CheckResponseFormatIdempotent(format: Option<string>)
    requires CheckResponseFormat(format).Success?
    ensures CheckResponseFormat(CheckResponseFormat(format).value) == CheckResponseFormat(format)
  {
  }

  /** The comparison is case-sensitive: an upper-case extension is refused. */
  lemma UpperCaseExtensionRefused()
    ensures GetFileContent("clip.WAV") == Failure(UnsupportedFileType)
  {
    assert GetFileType("clip.WAV") == "WAV" by {
      FileTypeIs("clip.WAV", "WAV");
      assert "clip.WAV"[4..] == ".WAV";
    }
  }

  /** A non-audio extension is refused. */
  lemma TextFileRefused()
    ensures GetFileContent("foo.txt") == Failure(UnsupportedFileType)
  {
    assert GetFileType("foo.txt") == "txt" by {
      FileTypeIs("foo.txt", "txt");
      assert "foo.txt"[3..] == ".txt";
    }
  }

  /** A dot-free name is its own file type, so the bare name "mp3" is accepted. */
  lemma BareExtensionAccepted()
    ensures GetFileContent("mp3") == Success(FileRef("mp3"))
  {
  }

  /** An allowed extension after the last dot is accepted. */
  lemma WavFileAccepted()
    ensures GetFileContent("clip.wav") == Success(FileRef("clip.wav"))
  {
    assert GetFileType("clip.wav") == "wav" by {
      FileTypeIs("clip.wav", "wav");
      assert "clip.wav"[4..] == ".wav";
    }
  }

  /** "xml" is not a response format. */
  lemma XmlFormatRefused()
    ensures CheckResponseFormat(Some("xml")) == Failure(UnsupportedResponseFormat)
  {
  }
}
