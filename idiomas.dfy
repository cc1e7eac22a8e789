/**
 * Idioma (DonkeyCards/Models/IdiomaModel.swift): a language the catalogue
 * offers, with an `ativo` flag; its key is the lower-cased name.
 */
module Idiomas {
  import opened Wrappers
  import opened Text
  import opened Json

  /** `dataCriacao` is in whole seconds since 1970. */
  datatype Idioma = Idioma(id: Option<string>, nome: string, ativo: bool, dataCriacao: int)

  /** `nome.lowercased()`. */
  function StorageId(i: Idioma): (r: string)
    ensures CaseVariants(r, i.nome)
    ensures forall k :: 0 <= k < |r| ==> !IsUpper(r[k])
  {
    Lower(i.nome)
  }

  /** Two languages share a key exactly when their names differ only in letter case. */
  lemma StorageIdIgnoresCase(a: Idioma, b: Idioma)
    ensures StorageId(a) == StorageId(b) <==> CaseVariants(a.nome, b.nome)
  {
    LowerEqualIffCaseVariants(a.nome, b.nome);
  }

  /**
   * `init(id:nome:ativo:dataCriacao:)` with its defaults: no id, active, and
   * created now.
   */
  function NewIdioma(nome: string, now: int, id: Option<string> := None, ativo: bool := true): (r: Idioma)
    ensures r.nome == nome && r.id == id && r.ativo == ativo && r.dataCriacao == now
    ensures StorageId(r) == Lower(nome)
  {
    Idioma(id, nome, ativo, now)
  }

  /** `init(from:)`: `nome` and `ativo` required, `id` optional, the date with fallbacks. */
  function DecodeIdioma(j: Json, ctx: DecodeContext): (r: Decoded<Idioma>)
    ensures r.Decoded? <==>
      && j.JObj?
      && OptionalString(j.fields, "id").Decoded?
      && RequiredString(j.fields, "nome").Decoded?
      && RequiredBool(j.fields, "ativo").Decoded?
      && DecodeDate(j.fields, "dataCriacao", ctx).Decoded?
    ensures r.Decoded? ==> (r.value.nome == j.fields["nome"].s && r.value.ativo == j.fields["ativo"].b)
    ensures r.Decoded? ==> DecodeDate(j.fields, "dataCriacao", ctx) == Decoded(r.value.dataCriacao)
    ensures j.JObj? && ("id" !in j.fields || j.fields["id"].JNull?) && r.Decoded? ==> r.value.id == None
    ensures r.Decoded? && "id" in j.fields && j.fields["id"].JStr? ==> r.value.id == Some(j.fields["id"].s)
  {
    if !j.JObj? then DecodeFailure
    else
      var f := j.fields;
      var id :- OptionalString(f, "id");
      var nome :- RequiredString(f, "nome");
      var ativo :- RequiredBool(f, "ativo");
      var dataCriacao :- DecodeDate(f, "dataCriacao", ctx);
      Decoded(Idioma(id, nome, ativo, dataCriacao))
  }

  /**
   * A language object with a proper name and flag and no other keys decodes,
   * with no id and the current time as its date.
   */
  lemma MinimalIdiomaDecodes(nome: string, ativo: bool, ctx: DecodeContext)
    ensures DecodeIdioma(JObj(map["nome" := JStr(nome), "ativo" := JBool(ativo)]), ctx)
         == Decoded(NewIdioma(nome, ctx.now, None, ativo))
  {
  }
}
