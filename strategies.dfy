/** The saving strategies (Assets/Scripts/Saving/Strategies/): each reads and
    writes one save file under the Saves folder, with its own extension.
    XorStrategy writes the JSON text through a XOR cipher; XorTextStrategy
    reads the same cipher text wrapped in Base64.

    Text is a sequence of UTF-16 code units (`bv16`), as a .NET string is.
    The file system is the `files` map from path to the text written there.
    Printing a JObject and parsing JSON text are not modelled: a save takes
    the printed text, and a load returns the text handed to JToken.Parse. */
module Strategies {
  import opened Common
  import opened SaveFiles

  type Char = bv16
  type Text = seq<Char>

  /** The UTF-16 code units of a string of ASCII characters. */
  function Ascii(s: string): (t: Text)
    ensures |t| == |s|
  {
    seq(|s|, i requires 0 <= i < |s| => ((s[i] as int) % 0x1_0000) as bv16)
  }

  /** The key both strategies start with. */
  const DefaultKey: Text := Ascii("TheQuickBrownFoxJumpedOverTheLazyDog")

  const SaveFolder: string := "Saves"

  /** SavingStrategy.BasePath: the Saves folder of the data path. */
  function BasePath(dataPath: string): string
  {
    Combine(dataPath, SaveFolder)
  }

  /** SavingStrategy.GetPath: `saveFile + extension` in the base path. */
  function GetPath(dataPath: string, saveFile: string, extension: string): (path: string)
    ensures path == BasePath(dataPath) + "/" + (saveFile + extension)
  {
    SavePath(BasePath(dataPath), saveFile, extension)
  }

  const XorExtension: string := ".sav"
  const XorTextExtension: string := ".savText"

  /** The two strategies never write to the same file. */
  lemma ExtensionsSeparateFiles(dataPath: string, a: string, b: string)
    ensures GetPath(dataPath, a, XorExtension) != GetPath(dataPath, b, XorTextExtension)
  {
    var p := GetPath(dataPath, a, XorExtension);
    var q := GetPath(dataPath, b, XorTextExtension);
    assert p[|p| - 1] == 'v';
    assert q[|q| - 1] == 't';
  }

  /** The XOR cipher: code unit i of the input XOR code unit `i mod |key|` of
      the key. */
  function Cipher(input: Text, key: Text): Text
    requires key != []
  {
    seq(|input|, i requires 0 <= i < |input| => Unit(input[i], key, i))
  }

  /** Code unit `c` at position `i` of the input, enciphered. */
  function Unit(c: Char, key: Text, i: nat): Char
    requires key != []
  {
    c ^ key[i % |key|]
  }

  /** Applying the cipher twice with the same key gives the input back. */
  lemma CipherInvolution(input: Text, key: Text)
    requires key != []
    ensures |Cipher(input, key)| == |input|
    ensures Cipher(Cipher(input, key), key) == input
  {
    var once := Cipher(input, key);
    forall i | 0 <= i < |input|
      ensures Cipher(once, key)[i] == input[i]
    {
      var k := key[i % |key|];
      assert once[i] == input[i] ^ k;
      assert Cipher(once, key)[i] == (input[i] ^ k) ^ k;
    }
  }

  /** EncryptDecrypt as the source computes it: an empty input is the empty
      string; otherwise the first `i % 0` throws (None) when the key is
      empty. */
  function Encrypted(input: Text, key: Text): Option<Text>
  {
    if input == [] then Some([])
    else if key == [] then None
    else Some(Cipher(input, key))
  }

  /** With a non-empty key, decrypting what was encrypted gives the input
      back; with an empty key, only the empty input gets through. */
  lemma EncryptedInvolution(input: Text, key: Text)
    ensures Encrypted(input, key).Some? <==> input == [] || key != []
    ensures Encrypted(input, key).Some? ==> Encrypted(Encrypted(input, key).value, key) == Some(input)
  {
    if input != [] && key != [] {
      CipherInvolution(input, key);
    }
  }

  /** One more code unit of input adds one code unit of cipher text. */
  lemma CipherSnoc(input: Text, key: Text, n: nat)
    requires key != [] && n < |input|
    ensures Cipher(input[..n + 1], key) == Cipher(input[..n], key) + [Unit(input[n], key, n)]
  {
    var longer := Cipher(input[..n + 1], key);
    var shorter := Cipher(input[..n], key);
    assert |longer| == |shorter| + 1;
    forall j | 0 <= j < n
      ensures longer[j] == shorter[j]
    {
      assert input[..n + 1][j] == input[..n][j];
    }
  }

  /** EncryptDecrypt: append each input code unit XOR the key's code unit at
      a running counter modulo the key length. A .NET string is shorter than
      2^31 code units, so the `int` counter never wraps. */
  method EncryptDecrypt(input: Text, key: Text) returns (r: Option<Text>)
    ensures r == Encrypted(input, key)
  {
    if |input| == 0 {
      return Some([]);
    }
    var output: Text := [];
    var keyLength := |key|;
    var i := 0;
    while i < |input|
      invariant 0 <= i <= |input|
      invariant i > 0 ==> keyLength > 0
      invariant keyLength > 0 ==> output == Cipher(input[..i], key)
    {
      if keyLength == 0 {
        return None;
      }
      CipherSnoc(input, key, i);
      output := output + [input[i] ^ key[i % keyLength]];
      assert output == Cipher(input[..i + 1], key);
      i := i + 1;
    }
    assert input[..i] == input;
    return Some(output);
  }

  /** A high (leading) surrogate code unit. */
  predicate High(c: Char)
  {
    c & 0xFC00 == 0xD800
  }

  /** A low (trailing) surrogate code unit. */
  predicate Low(c: Char)
  {
    c & 0xFC00 == 0xDC00
  }

  /** Well-formed UTF-16: surrogates come in high-low pairs. Only such text
      survives the UTF-8 encoding of the text file. */
  predicate WellFormed(t: Text)
  {
    (forall i :: 0 <= i < |t| && High(t[i]) ==> i + 1 < |t| && Low(t[i + 1])) &&
    (forall i :: 0 <= i < |t| && Low(t[i]) ==> 0 < i && High(t[i - 1]))
  }

  predicate AsciiText(t: Text)
  {
    forall i :: 0 <= i < |t| ==> t[i] < 0x80
  }

  /** XOR with an ASCII code unit changes only the low seven bits. */
  lemma XorAsciiKeepsKind(c: Char, k: Char)
    requires k < 0x80
    ensures High(c ^ k) == High(c) && Low(c ^ k) == Low(c)
  {
    assert k & 0xFC00 == 0;
    assert (c ^ k) & 0xFC00 == (c & 0xFC00) ^ (k & 0xFC00);
  }

  /** With an ASCII key (the default key, or a GUID's text), the cipher text
      is well-formed exactly when the plain text is: the cipher text can be
      written to a UTF-8 text file and read back unchanged. */
  lemma AsciiKeyKeepsWellFormed(input: Text, key: Text)
    requires key != [] && AsciiText(key)
    ensures WellFormed(Cipher(input, key)) <==> WellFormed(input)
  {
    var out := Cipher(input, key);
    forall i | 0 <= i < |input|
      ensures High(out[i]) == High(input[i]) && Low(out[i]) == Low(input[i])
    {
      assert out[i] == Unit(input[i], key, i);
      XorAsciiKeepsKind(input[i], key[i % |key|]);
    }
  }

  /** What LoadFromFile hands on: a new empty JObject for a missing file, or
      the text JToken.Parse reads. */
  datatype Loaded = NewObject | Parse(json: Text)

  /** XorStrategy's load of `path` from `files` with `key`; None is the
      DivideByZeroException of an empty key. */
  function XorLoad(files: map<string, Text>, path: string, key: Text): Option<Loaded>
  {
    if path !in files then Some(NewObject)
    else
      match Encrypted(files[path], key)
      case None => None
      case Some(json) => Some(Parse(json))
  }

  /** What XorStrategy's SaveToFile leaves in the file, when the model fixes
      it: the cipher text; or, when the cipher throws, the empty file
      File.CreateText already made. None when the cipher text is not
      well-formed UTF-16: the writer's strict UTF-8 encoder then throws part-way
      and leaves some prefix of it. */
  function XorSaved(json: Text, key: Text): Option<Text>
  {
    match Encrypted(json, key)
    case None => Some([])
    case Some(encoded) => if WellFormed(encoded) then Some(encoded) else None
  }

  /** With an ASCII key, saving fails in the writer exactly when the JSON text
      is not well-formed. */
  lemma XorSaveUnwritable(json: Text, key: Text)
    requires key != [] && AsciiText(key)
    ensures XorSaved(json, key).None? <==> !WellFormed(json)
  {
    if json != [] {
      AsciiKeyKeepsWellFormed(json, key);
    }
  }

  /** Loading a file saved with an ASCII key from well-formed text gives the
      saved text back; the other files are untouched by the save. */
  lemma XorSaveThenLoad(files: map<string, Text>, path: string, json: Text, key: Text)
    requires key != [] && AsciiText(key) && WellFormed(json)
    ensures XorSaved(json, key).Some?
    ensures XorLoad(files[path := XorSaved(json, key).value], path, key) == Some(Parse(json))
    ensures forall p :: p != path ==> XorLoad(files[path := XorSaved(json, key).value], p, key) == XorLoad(files, p, key)
  {
    EncryptedInvolution(json, key);
    if json != [] {
      AsciiKeyKeepsWellFormed(json, key);
    }
  }

  /** With an empty key, saving non-empty text throws after the file was
      truncated, and the empty file then loads as the empty text. */
  lemma XorEmptyKeyTruncates(files: map<string, Text>, path: string, json: Text)
    requires json != []
    ensures XorSaved(json, []) == Some([])
    ensures XorLoad(files[path := XorSaved(json, []).value], path, []) == Some(Parse([]))
  {
  }

  class XorStrategy {
    /** Application.persistentDataPath. */
    const dataPath: string
    var key: Text
    var files: map<string, Text>

    constructor (dataPath: string, files: map<string, Text>)
      ensures this.dataPath == dataPath && key == DefaultKey && this.files == files
    {
      this.dataPath := dataPath;
      key := DefaultKey;
      this.files := files;
    }

    function Path(saveFile: string): string
    {
      GetPath(dataPath, saveFile, XorExtension)
    }

    /** SaveToFile: create (or truncate) the file, then write the cipher of
        the JSON text; `ok` is false when the cipher throws, or when the
        cipher text is not well-formed and the UTF-8 writer throws after
        writing a prefix of it. */
    method SaveToFile(saveFile: string, json: Text) returns (ok: bool)
      modifies this
      ensures ok <==> XorSaved(json, key).Some? && Encrypted(json, key).Some?
      ensures key == old(key)
      ensures XorSaved(json, key).Some? ==> files == old(files)[Path(saveFile) := XorSaved(json, key).value]
      ensures XorSaved(json, key).None? ==>
                Path(saveFile) in files && files[Path(saveFile)] <= Encrypted(json, key).value &&
                files == old(files)[Path(saveFile) := files[Path(saveFile)]]
    {
      var path := Path(saveFile);
      files := files[path := []];
      var encoded := EncryptDecrypt(json, key);
      if encoded.None? {
        return false;
      }
      if !WellFormed(encoded.value) {
        var written: Text :| written <= encoded.value;
        files := files[path := written];
        return false;
      }
      files := files[path := encoded.value];
      ok := true;
    }

    /** LoadFromFile: a missing file is a new JObject; otherwise the file's
        text deciphered. */
    method LoadFromFile(saveFile: string) returns (r: Option<Loaded>)
      ensures r == XorLoad(files, Path(saveFile), key)
      ensures r.Some? && r.value.Parse? ==> Path(saveFile) in files && |r.value.json| == |files[Path(saveFile)]|
    {
      var path := Path(saveFile);
      if path !in files {
        return Some(NewObject);
      }
      var encoded := files[path];
      var json := EncryptDecrypt(encoded, key);
      if json.None? {
        return None;
      }
      r := Some(Parse(json.value));
    }
  }

  /** DecodeFromBase64String: the empty text is decoded to itself without a
      call; anything else goes to Convert.FromBase64String and
      Encoding.UTF8.GetString, given as `fromBase64` (None when it throws). */
  function DecodeFromBase64String(encoded: Text, fromBase64: Text -> Option<Text>): (r: Option<Text>)
    ensures encoded == [] ==> r == Some([])
    ensures encoded != [] ==> r == fromBase64(encoded)
  {
    if encoded == [] then Some([]) else fromBase64(encoded)
  }

  /** XorTextStrategy's load: a new JObject for a missing file, else the
      Base64 decoding of its text, deciphered. */
  function XorTextLoad(files: map<string, Text>, path: string, key: Text,
                       fromBase64: Text -> Option<Text>): Option<Loaded>
  {
    if path !in files then Some(NewObject)
    else
      match DecodeFromBase64String(files[path], fromBase64)
      case None => None
      case Some(decoded) =>
        match Encrypted(decoded, key)
        case None => None
        case Some(json) => Some(Parse(json))
  }

  /** When the file holds the Base64 of the cipher text, XorTextStrategy's
      load gives the JSON text back; an empty file loads as the empty text. */
  lemma XorTextLoadsCipher(files: map<string, Text>, path: string, key: Text, json: Text,
                           fromBase64: Text -> Option<Text>)
    requires key != [] && path in files
    requires files[path] != [] ==> fromBase64(files[path]) == Encrypted(json, key)
    requires files[path] == [] ==> json == []
    ensures XorTextLoad(files, path, key, fromBase64) == Some(Parse(json))
  {
    EncryptedInvolution(json, key);
  }

  class XorTextStrategy {
    const dataPath: string
    var key: Text
    var files: map<string, Text>

    constructor (dataPath: string, files: map<string, Text>)
      ensures this.dataPath == dataPath && key == DefaultKey && this.files == files
    {
      this.dataPath := dataPath;
      key := DefaultKey;
      this.files := files;
    }

    function Path(saveFile: string): string
    {
      GetPath(dataPath, saveFile, XorTextExtension)
    }

    /** LoadFromFile: a missing file is a new JObject; otherwise the file's
        text is Base64-decoded and deciphered. */
    method LoadFromFile(saveFile: string, fromBase64: Text -> Option<Text>) returns (r: Option<Loaded>)
      ensures r == XorTextLoad(files, Path(saveFile), key, fromBase64)
      ensures Path(saveFile) in files && files[Path(saveFile)] == [] ==> r == Some(Parse([]))
    {
      var path := Path(saveFile);
      if path !in files {
        return Some(NewObject);
      }
      var encoded := files[path];
      var decoded := DecodeFromBase64String(encoded, fromBase64);
      if decoded.None? {
        return None;
      }
      var json := EncryptDecrypt(decoded.value, key);
      if json.None? {
        return None;
      }
      r := Some(Parse(json.value));
    }
  }
}
