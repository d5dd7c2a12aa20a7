/** The names a provider goes by, and the one they are all turned into. */
module ProviderNames {
  import opened Common

  function LowerByte(c: byte): byte {
    if 0x41 <= c <= 0x5A then c + 0x20 else c
  }

  function Lower(s: Bytes): (r: Bytes)
    ensures |r| == |s|
  {
    if s == [] then [] else [LowerByte(s[0])] + Lower(s[1..])
  }

  lemma {:induction false} LowerAt(s: Bytes, i: nat)
    requires i < |s|
    ensures Lower(s)[i] == LowerByte(s[i])
  {
    if 0 < i { LowerAt(s[1..], i - 1); }
  }

  /** The pairs of a lower-case key and its canonical name, in the order they are tried. */
  datatype Provider = CPU | Cuda | QNN | WebGPU | DML | OpenVINO | VitisAI | RyzenAI | NvTensorRtRtx | AMDGPU

  /** executionprovider */
  const SUFFIX: Bytes :=
    [0x65, 0x78, 0x65, 0x63, 0x75, 0x74, 0x69, 0x6F, 0x6E, 0x70, 0x72, 0x6F, 0x76, 0x69, 0x64, 0x65, 0x72]

  function Key(p: Provider): Bytes {
    match p
    case CPU => [0x63, 0x70, 0x75] // cpu
    case Cuda => [0x63, 0x75, 0x64, 0x61] // cuda
    case QNN => [0x71, 0x6E, 0x6E] // qnn
    case WebGPU => [0x77, 0x65, 0x62, 0x67, 0x70, 0x75] // webgpu
    case DML => [0x64, 0x6D, 0x6C] // dml
    case OpenVINO => [0x6F, 0x70, 0x65, 0x6E, 0x76, 0x69, 0x6E, 0x6F] // openvino
    case VitisAI => [0x76, 0x69, 0x74, 0x69, 0x73, 0x61, 0x69] // vitisai
    case RyzenAI => [0x72, 0x79, 0x7A, 0x65, 0x6E, 0x61, 0x69] // ryzenai
    // nvtensorrtrtx
    case NvTensorRtRtx => [0x6E, 0x76, 0x74, 0x65, 0x6E, 0x73, 0x6F, 0x72, 0x72, 0x74, 0x72, 0x74, 0x78]
    case AMDGPU => [0x61, 0x6D, 0x64, 0x67, 0x70, 0x75] // amdgpu
  }

  function Name(p: Provider): Bytes {
    match p
    case CPU => [0x43, 0x50, 0x55] // CPU
    case Cuda => [0x63, 0x75, 0x64, 0x61] // cuda
    case QNN => [0x51, 0x4E, 0x4E] // QNN
    case WebGPU => [0x57, 0x65, 0x62, 0x47, 0x50, 0x55] // WebGPU
    case DML => [0x44, 0x4D, 0x4C] // DML
    case OpenVINO => [0x4F, 0x70, 0x65, 0x6E, 0x56, 0x49, 0x4E, 0x4F] // OpenVINO
    case VitisAI => [0x56, 0x69, 0x74, 0x69, 0x73, 0x41, 0x49] // VitisAI
    case RyzenAI => [0x52, 0x79, 0x7A, 0x65, 0x6E, 0x41, 0x49] // RyzenAI
    // NvTensorRtRtx
    case NvTensorRtRtx => [0x4E, 0x76, 0x54, 0x65, 0x6E, 0x73, 0x6F, 0x72, 0x52, 0x74, 0x52, 0x74, 0x78]
    case AMDGPU => [0x41, 0x4D, 0x44, 0x47, 0x50, 0x55] // AMDGPU
  }

  /** A longer name that ends with the suffix loses it. */
  function StripSuffix(s: Bytes): Bytes {
    if |s| > |SUFFIX| && s[|s| - |SUFFIX|..] == SUFFIX then s[..|s| - |SUFFIX|] else s
  }

  /** The provider a key dispatches to. */
  function Dispatch(key: Bytes): Option<Provider> {
    if key == Key(CPU) then Some(CPU)
    else if key == Key(Cuda) then Some(Cuda)
    else if key == Key(QNN) then Some(QNN)
    else if key == Key(WebGPU) then Some(WebGPU)
    else if key == Key(DML) then Some(DML)
    else if key == Key(OpenVINO) then Some(OpenVINO)
    else if key == Key(VitisAI) then Some(VitisAI)
    else if key == Key(RyzenAI) then Some(RyzenAI)
    else if key == Key(NvTensorRtRtx) then Some(NvTensorRtRtx)
    else if key == Key(AMDGPU) || key == Key(AMDGPU) + SUFFIX then Some(AMDGPU)
    else None
  }

  function NormalizeProviderName(name: Bytes): Bytes {
    match Dispatch(StripSuffix(Lower(name)))
    case Some(p) => Name(p)
    case None => name
  }

  lemma {:induction false} Lowered(s: Bytes, t: Bytes)
    requires |s| == |t| && forall i | 0 <= i < |s| :: LowerByte(s[i]) == t[i]
    ensures Lower(s) == t
  {
    hide Lower, LowerByte;
    forall i | 0 <= i < |s| ensures Lower(s)[i] == t[i] { LowerAt(s, i); }
  }

  /** Every canonical name is its key up to case. */
  lemma {:induction false} NameLowersToKey(p: Provider)
    ensures Lower(Name(p)) == Key(p) && |Name(p)| <= |SUFFIX|
  {
    hide Lower;
    Lowered(Name(p), Key(p));
  }

  lemma {:induction false} DispatchKey(p: Provider)
    ensures Dispatch(Key(p)) == Some(p)
  {
  }

  /** A normalized name is its own normal form. */
  lemma {:induction false} NormalizeIdempotent(name: Bytes)
    ensures NormalizeProviderName(NormalizeProviderName(name)) == NormalizeProviderName(name)
  {
    hide Dispatch, Lower, Key, Name;
    var found := Dispatch(StripSuffix(Lower(name)));
    if found.Some? {
      NameLowersToKey(found.value);
      DispatchKey(found.value);
    }
  }

  /** s is the lower-case text t, in any casing. */
  ghost predicate Spells(s: Bytes, t: Bytes) {
    |s| == |t| && forall i | 0 <= i < |s| :: SameLetter(s[i], t[i])
  }

  /** c is the lower-case byte d or its capital. */
  ghost predicate SameLetter(c: byte, d: byte) {
    if 0x61 <= d <= 0x7A then c == d || c == d - 0x20 else c == d
  }

  /** The names that a provider goes by: its key in any casing, alone or followed by the shared suffix. The last
      provider's catalog name already ends with it. */
  ghost predicate GoesBy(name: Bytes, p: Provider) {
    || Spells(name, Key(p)) || Spells(name, Key(p) + SUFFIX)
    || (p == AMDGPU && Spells(name, Key(p) + SUFFIX + SUFFIX))
  }

  /** What normalization does: every name that a provider goes by becomes its canonical name, any other name stays. */
  lemma {:induction false} NormalizeIs(name: Bytes)
    ensures forall p | GoesBy(name, p) :: NormalizeProviderName(name) == Name(p)
    ensures (forall p :: !GoesBy(name, p)) ==> NormalizeProviderName(name) == name
  {
    hide Lower, Key, Name, Dispatch, Spells;
    var low := Lower(name);
    LowersNever(name);
    forall p | GoesBy(name, p) ensures NormalizeProviderName(name) == Name(p) {
      LowersAs(name, Key(p));
      LowersAs(name, Key(p) + SUFFIX);
      LowersAs(name, Key(p) + SUFFIX + SUFFIX);
      KeyFacts(p);
      if low == Key(p) + SUFFIX {
        Stripped(Key(p), low);
      } else if low != Key(p) {
        Stripped(Key(p) + SUFFIX, low);
      }
    }
    var found := Dispatch(StripSuffix(low));
    if found.Some? {
      var p := found.value;
      DispatchOnly(StripSuffix(low), p);
      LowersAs(name, Key(p));
      LowersAs(name, Key(p) + SUFFIX);
      LowersAs(name, Key(p) + SUFFIX + SUFFIX);
      Restored(low);
      assert GoesBy(name, p);
    }
  }

  lemma {:induction false} LowersAs(name: Bytes, t: Bytes)
    requires IsLowerCase(Lower(name))
    ensures IsLowerCase(t) ==> (Spells(name, t) <==> Lower(name) == t)
  {
    hide Lower;
    if IsLowerCase(t) {
      if |name| == |t| {
        forall i | 0 <= i < |name| ensures SameLetter(name[i], t[i]) <==> Lower(name)[i] == t[i] {
          LowerAt(name, i);
        }
      }
    }
  }

  /** No capital letters. */
  ghost predicate IsLowerCase(t: Bytes) {
    forall i | 0 <= i < |t| :: !(0x41 <= t[i] <= 0x5A)
  }

  lemma {:induction false} LowersNever(name: Bytes)
    ensures IsLowerCase(Lower(name))
  {
    hide Lower;
    forall i | 0 <= i < |name| ensures !(0x41 <= Lower(name)[i] <= 0x5A) { LowerAt(name, i); }
  }

  lemma {:induction false} KeyFacts(p: Provider)
    ensures IsLowerCase(Key(p)) && IsLowerCase(Key(p) + SUFFIX) && IsLowerCase(Key(p) + SUFFIX + SUFFIX)
    ensures 0 < |Key(p)| < |SUFFIX| && StripSuffix(Key(p)) == Key(p)
    ensures Dispatch(Key(p)) == Some(p) && Dispatch(Key(AMDGPU) + SUFFIX) == Some(AMDGPU)
  {
    KeyIsLower(p);
    SuffixIsLower();
    CatalogName();
    DispatchKey(p);
    hide Key, Dispatch;
  }

  lemma {:induction false} KeyIsLower(p: Provider)
    ensures IsLowerCase(Key(p)) && 0 < |Key(p)| < |SUFFIX|
  {}

  lemma {:induction false} SuffixIsLower()
    ensures IsLowerCase(SUFFIX)
  {}

  lemma {:induction false} CatalogName()
    ensures Dispatch(Key(AMDGPU) + SUFFIX) == Some(AMDGPU)
  {
    forall p | p != AMDGPU ensures Key(AMDGPU) + SUFFIX != Key(p) { KeyIsLower(p); }
  }

  lemma {:induction false} Stripped(key: Bytes, low: Bytes)
    requires key != [] && low == key + SUFFIX
    ensures StripSuffix(low) == key
  {
    assert low[|low| - |SUFFIX|..] == SUFFIX && low[..|low| - |SUFFIX|] == key;
  }

  lemma {:induction false} Restored(low: Bytes)
    ensures low == StripSuffix(low) || low == StripSuffix(low) + SUFFIX
  {}

  lemma {:induction false} DispatchOnly(key: Bytes, p: Provider)
    requires Dispatch(key) == Some(p)
    ensures key == Key(p) || (p == AMDGPU && key == Key(p) + SUFFIX)
    ensures IsLowerCase(Key(p)) && IsLowerCase(Key(p) + SUFFIX) && IsLowerCase(Key(p) + SUFFIX + SUFFIX)
  {
    KeyFacts(p);
    hide Key;
  }
}
