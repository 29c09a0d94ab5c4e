/** The fixed texts of the system: regime names, the markers searched for in
    a contribution report, and the placeholder employers. */
module Constants {

  const RegimeGeneral: string := "GENERAL"
  const RegimeSelfEmployed: string := "AUTONOMO"

  const SexMale: string := "MASCULINO"
  const SexFemale: string := "FEMENINO"

  /** Report markers. */
  const RegimeMarker: string := "Régimen:"
  const EmployerMarker: string := "Empresa/Razón"
  const CccMarker: string := "CCC:"
  const SelfEmployedMarker: string := "AUTÓNOMOS"
  const SocialLabel: string := "Social:"

  /** Report cells that hold no amount. */
  const NotAvailable: string := "---"
  const Pending: string := "Pendiente"

  /** Employers written on records the system makes up. */
  const UnknownEmployer: string := "Empresa no identificada"
  const SelfEmployedEmployer: string := "AUTÓNOMO"
  const ProjectedEmployer: string := "SIMULADA"
  const GapEmployer: string := "LAGUNA"

  /** Whether a (upper-cased) regime name is one the system accepts. */
  predicate IsRegime(s: string)
  {
    s == RegimeGeneral || s == RegimeSelfEmployed
  }

  /** Whether a (upper-cased) sex is one the request accepts. */
  predicate IsSex(s: string)
  {
    s == SexMale || s == SexFemale
  }
}
