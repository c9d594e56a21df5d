/**
 * The ten activity types a provider may offer. The server's validator and
 * both client forms carry the same list.
 */
module Tipos {
  import opened Text

  const AllowedTipos: seq<string> := [
    "Ruta en bici por el r\U{00ED}o Guadalquivir",
    "Visita al Real Alc\U{00E1}zar de Sevilla",
    "Partida de juegos de rol " + "(D&D, Pathfinder, etc.)",
    "Paseo fotogr\U{00E1}fico " + "por el Barrio de Santa Cruz",
    "Tarde de escape room",
    "Kayak o piragua por la d\U{00E1}rsena de Sevilla",
    "Tour gastron\U{00F3}mico por tapas",
    "Tarde de juegos de mesa en cafeter\U{00ED}a tem\U{00E1}tica",
    "Observaci\U{00F3}n de estrellas en las afueras",
    "Clases o sesi\U{00F3}n de baile " + "(sevillanas, salsa o bachata)"
  ]

  /** No listed type starts or ends with whitespace, so trimming never changes one. */
  lemma AllowedTiposUnpadded(t: string)
    requires t in AllowedTipos
    ensures Unpadded(t) && Trim(t) == t
  {
    assert |AllowedTipos[0]| == 36 && AllowedTipos[0][0] == 'R' && AllowedTipos[0][35] == 'r';
    assert |AllowedTipos[1]| == 33 && AllowedTipos[1][0] == 'V' && AllowedTipos[1][32] == 'a';
    assert |AllowedTipos[2]| == 48 && AllowedTipos[2][0] == 'P' && AllowedTipos[2][47] == ')';
    assert |AllowedTipos[3]| == 45 && AllowedTipos[3][0] == 'P' && AllowedTipos[3][44] == 'z';
    assert |AllowedTipos[4]| == 20 && AllowedTipos[4][0] == 'T' && AllowedTipos[4][19] == 'm';
    assert |AllowedTipos[5]| == 41 && AllowedTipos[5][0] == 'K' && AllowedTipos[5][40] == 'a';
    assert |AllowedTipos[6]| == 27 && AllowedTipos[6][0] == 'T' && AllowedTipos[6][26] == 's';
    assert |AllowedTipos[7]| == 45 && AllowedTipos[7][0] == 'T' && AllowedTipos[7][44] == 'a';
    assert |AllowedTipos[8]| == 39 && AllowedTipos[8][0] == 'O' && AllowedTipos[8][38] == 's';
    assert |AllowedTipos[9]| == 54 && AllowedTipos[9][0] == 'C' && AllowedTipos[9][53] == ')';
    TrimPadded("", t, "");
    assert "" + t + "" == t;
  }

  /** A listed type with whitespace around it trims back to that type. */
  lemma PaddedTipoTrims(p: string, t: string, q: string)
    requires t in AllowedTipos
    requires forall i :: 0 <= i < |p| ==> IsSpace(p[i])
    requires forall i :: 0 <= i < |q| ==> IsSpace(q[i])
    ensures Trim(p + t + q) == t && Trim(p + t + q) in AllowedTipos
  {
    AllowedTiposUnpadded(t);
    TrimPadded(p, t, q);
  }
}
