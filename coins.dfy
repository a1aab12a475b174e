/**
 * Coin records: a record maps the store's fixed field keys to values, the way
 * the Python dictionaries saved in the collection file do.
 */
module Coins {
  import opened Text

  /** The fixed field keys of a coin record, in the store's logical order. */
  datatype Field =
    | Id | Country | MintYear | Kind | IssueYears | Worth | FaceValue
    | CurrencyUnit | Composition | Weight | Diameter | Thickness | Orientation
    | Demonetized | Edge | MintMark | PrintRun | Quantity | Condition
    | ImportantNote | ObversePhoto | ReversePhoto | FlagPhoto | ShieldPhoto
  {
    /** The key under which the field is saved in the collection file. */
    function Key(): string
    {
      match this
      case Id => "codigo_unico"
      case Country => "pais_emisor"
      case MintYear => "ano_acunacion"
      case Kind => "tipo"
      case IssueYears => "anos_de_emision"
      case Worth => "valor"
      case FaceValue => "valor_nominal"
      case CurrencyUnit => "unidad_monetaria"
      case Composition => "composicion"
      case Weight => "peso"
      case Diameter => "diametro"
      case Thickness => "grosor"
      case Orientation => "orientacion"
      case Demonetized => "desmonetizada"
      case Edge => "canto"
      case MintMark => "ceca"
      case PrintRun => "tirada"
      case Quantity => "cantidad"
      case Condition => "estado"
      case ImportantNote => "nota_importante"
      case ObversePhoto => "foto_anverso"
      case ReversePhoto => "foto_reverso"
      case FlagPhoto => "foto_bandera"
      case ShieldPhoto => "foto_escudo"
    }
  }

  /** The list of every defined field key. */
  const FieldList: seq<Field> :=
    [ Id, Country, MintYear, Kind, IssueYears, Worth, FaceValue,
      CurrencyUnit, Composition, Weight, Diameter, Thickness, Orientation,
      Demonetized, Edge, MintMark, PrintRun, Quantity, Condition,
      ImportantNote, ObversePhoto, ReversePhoto, FlagPhoto, ShieldPhoto ]

  /** Every field is defined in the list. */
  lemma FieldListHasField(f: Field)
    ensures f in FieldList
  {
      match f
      case Id => assert FieldList[0] == f;
      case Country => assert FieldList[1] == f;
      case MintYear => assert FieldList[2] == f;
      case Kind => assert FieldList[3] == f;
      case IssueYears => assert FieldList[4] == f;
      case Worth => assert FieldList[5] == f;
      case FaceValue => assert FieldList[6] == f;
      case CurrencyUnit => assert FieldList[7] == f;
      case Composition => assert FieldList[8] == f;
      case Weight => assert FieldList[9] == f;
      case Diameter => assert FieldList[10] == f;
      case Thickness => assert FieldList[11] == f;
      case Orientation => assert FieldList[12] == f;
      case Demonetized => assert FieldList[13] == f;
      case Edge => assert FieldList[14] == f;
      case MintMark => assert FieldList[15] == f;
      case PrintRun => assert FieldList[16] == f;
      case Quantity => assert FieldList[17] == f;
      case Condition => assert FieldList[18] == f;
      case ImportantNote => assert FieldList[19] == f;
      case ObversePhoto => assert FieldList[20] == f;
      case ReversePhoto => assert FieldList[21] == f;
      case FlagPhoto => assert FieldList[22] == f;
      case ShieldPhoto => assert FieldList[23] == f;
  }

  lemma FieldListHasEveryField()
    ensures forall f: Field :: f in FieldList
  {
    forall f: Field ensures f in FieldList {
      FieldListHasField(f);
    }
  }

  /** The values a field can hold: `None`, a string, an integer or a boolean. */
  datatype Value = Null | Str(s: string) | Int(i: int) | Bool(b: bool)

  type Record = map<Field, Value>

  /** `record.get(field)`: a missing key reads as `None`. */
  function Get(r: Record, f: Field): Value
  {
    if f in r then r[f] else Null
  }

  /** `record.get(field, default)`. */
  function GetOr(r: Record, f: Field, default: Value): Value
  {
    if f in r then r[f] else default
  }

  /** Python truthiness of a value. */
  predicate Truthy(v: Value)
  {
    match v
    case Null => false
    case Str(s) => s != ""
    case Int(i) => i != 0
    case Bool(b) => b
  }

  /** `str(value)`. */
  function Show(v: Value): string
  {
    match v
    case Null => "None"
    case Str(s) => s
    case Int(i) => IntToString(i)
    case Bool(b) => if b then "True" else "False"
  }

  /** `record.get(id_key) == id`. */
  predicate HasId(r: Record, id: string)
  {
    Get(r, Id) == Str(id)
  }

  /** `str(record.get(id_key, ""))`, the text the identifier generator inspects. */
  function IdText(r: Record): string
  {
    Show(GetOr(r, Id, Str("")))
  }

  /** No two records of the collection carry the same identifier text. */
  predicate DistinctIds(coins: seq<Record>)
  {
    forall i, j :: 0 <= i < j < |coins| ==> IdText(coins[i]) != IdText(coins[j])
  }

  /**
   * The record that adding `coin` stores: every defined key present, the
   * missing ones set to `None`, and the identifier set to `id`.
   */
  function Complete(coin: Record, id: string): (r: Record)
    ensures forall f: Field :: f in r
    ensures r[Id] == Str(id) && IdText(r) == id
    ensures forall f :: f != Id ==> r[f] == Get(coin, f)
  {
    FieldListHasEveryField();
    map f | f in FieldList :: if f == Id then Str(id) else Get(coin, f)
  }
}
